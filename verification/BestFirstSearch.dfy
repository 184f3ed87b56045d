/** The best-first search over a neighbour graph: its work lists, what it visits, and what its results are worth. */
module BestFirstSearch {
  import opened Common
  import opened NeighborGraph

  /** A search: the graph, the length of the result list, and the query with its similarity. */
  datatype Problem = Problem(g: Graph, ef: nat, sim: Similarity, query: Vector) {
    function Score(id: Id): real
      requires id in g
    {
      sim(query, g[id].vector)
    }

    ghost predicate True(items: seq<Hit>) { TrueScores(items, Vectors(g), sim, query) }
  }

  /** Two lists sorted best first, and everything looked at so far. */
  datatype Work = Work(candidates: seq<Hit>, best: seq<Hit>, visited: set<Id>)

  // ---- the sorted lists ----

  /** The place after every entry that scores at least as well. */
  function Place(items: seq<Hit>, score: real): (at: nat)
    ensures at <= |items|
    ensures at > 0 ==> items[at - 1].score >= score
    ensures forall i :: at <= i < |items| ==> items[i].score < score
  {
    if items == [] then 0
    else if items[|items| - 1].score >= score then |items|
    else Place(items[..|items| - 1], score)
  }

  function Splice(items: seq<Hit>, at: nat, hit: Hit): seq<Hit>
    requires at <= |items|
  {
    items[..at] + [hit] + items[at..]
  }

  function Pushed(items: seq<Hit>, hit: Hit): seq<Hit> { Splice(items, Place(items, hit.score), hit) }

  /** The result list also drops its last entry when it overflows. */
  function PushedBest(best: seq<Hit>, hit: Hit, ef: nat): seq<Hit> {
    var r := Pushed(best, hit);
    if |r| > ef then r[..|r| - 1] else r
  }

  lemma SpliceFacts(items: seq<Hit>, at: nat, hit: Hit)
    requires SortedDesc(items) && at <= |items|
    requires forall i :: 0 <= i < at ==> items[i].score >= hit.score
    requires forall i :: at <= i < |items| ==> items[i].score < hit.score
    ensures var r := Splice(items, at, hit);
            && |r| == |items| + 1 && SortedDesc(r)
            && (forall h :: h in r <==> h == hit || h in items)
            && (forall t :: 0 <= t < |items| ==> r[t].score >= items[t].score)
            && r[0].score >= hit.score
  {
    assert items == items[..at] + items[at..];
  }

  lemma SpliceDistinct(items: seq<Hit>, at: nat, hit: Hit)
    requires at <= |items| && DistinctIds(items) && hit.id !in Ids(items)
    ensures DistinctIds(Splice(items, at, hit))
  {
    assert forall i :: 0 <= i < |items| ==> items[i] in items && items[i].id in Ids(items);
  }

  lemma PlaceFacts(items: seq<Hit>, score: real)
    requires SortedDesc(items)
    ensures forall i :: 0 <= i < Place(items, score) ==> items[i].score >= score
  {
  }

  /** Pushing keeps a list sorted, adds exactly the new hit, and lowers no rank. */
  lemma PushedFacts(items: seq<Hit>, hit: Hit)
    requires SortedDesc(items)
    ensures var r := Pushed(items, hit);
            && |r| == |items| + 1 && SortedDesc(r)
            && (forall h :: h in r <==> h == hit || h in items)
            && Ids(r) == Ids(items) + {hit.id}
            && (forall t :: 0 <= t < |items| ==> r[t].score >= items[t].score)
            && r[0].score >= hit.score
            && (DistinctIds(items) && hit.id !in Ids(items) ==> DistinctIds(r))
  {
    var at := Place(items, hit.score);
    hide Place, Splice;
    PlaceFacts(items, hit.score);
    SpliceFacts(items, at, hit);
    if DistinctIds(items) && hit.id !in Ids(items) { SpliceDistinct(items, at, hit); }
  }

  /** A full result list loses one of its worst hits, or the new one if that is no better. */
  lemma PushedBestFacts(best: seq<Hit>, hit: Hit, ef: nat)
    requires SortedDesc(best) && DistinctIds(best) && hit.id !in Ids(best) && |best| <= ef && ef >= 1
    ensures var r := PushedBest(best, hit, ef);
            && SortedDesc(r) && DistinctIds(r) && |r| == Min(ef, |best| + 1)
            && (forall h :: h in r ==> h == hit || h in best)
            && (forall h, x :: (h == hit || h in best) && h !in r && x in r ==> h.score <= x.score)
            && (forall t :: 0 <= t < |best| ==> r[t].score >= best[t].score)
            && r[0].score >= hit.score
            && (|best| < ef ==> Ids(r) == Ids(best) + {hit.id})
  {
    hide Pushed;
    PushedFacts(best, hit);
    DropLastFacts(Pushed(best, hit));
  }

  lemma DropLastFacts(full: seq<Hit>)
    requires SortedDesc(full) && DistinctIds(full) && full != []
    ensures var r := full[..|full| - 1];
            && SortedDesc(r) && DistinctIds(r)
            && (forall h :: h in r ==> h in full)
            && (forall h, x :: h in full && h !in r && x in r ==> h.score <= x.score)
  {
    assert full == full[..|full| - 1] + [full[|full| - 1]];
  }

  // ---- the search ----

  function Offered(p: Problem, w: Work, hit: Hit): Work {
    Work(Pushed(w.candidates, hit), PushedBest(w.best, hit, p.ef), w.visited + {hit.id})
  }

  /** One neighbour. `worst` is the last score of the result list before the loop over the neighbours began. */
  function VisitOne(p: Problem, worst: real, w: Work, id: Id): Work {
    if id in w.visited then w
    else if id !in p.g then w.(visited := w.visited + {id})
    else
      var hit := Hit(id, p.Score(id));
      if |w.best| < p.ef || hit.score > worst then Offered(p, w, hit) else w.(visited := w.visited + {id})
  }

  function VisitAll(p: Problem, worst: real, w: Work, neighbors: seq<Id>): (r: Work)
    ensures w.visited <= r.visited <= w.visited + Elems(neighbors)
    ensures Elems(neighbors) <= r.visited
    ensures r.visited == w.visited ==> r == w
    ensures w.best != [] && p.ef >= 1 ==> r.best != []
  {
    if neighbors == [] then w
    else
      ElemsStep(neighbors, |neighbors| - 1);
      assert neighbors[..|neighbors| - 1 + 1] == neighbors;
      VisitOne(p, worst, VisitAll(p, worst, w, neighbors[..|neighbors| - 1]), neighbors[|neighbors| - 1])
  }

  lemma VisitNone(p: Problem, worst: real, w: Work, neighbors: seq<Id>)
    ensures VisitAll(p, worst, w, neighbors[..0]) == w
  {
  }

  lemma VisitOneMore(p: Problem, worst: real, w: Work, neighbors: seq<Id>, i: nat)
    requires i < |neighbors|
    ensures VisitAll(p, worst, w, neighbors[..i + 1]) ==
        VisitOne(p, worst, VisitAll(p, worst, w, neighbors[..i]), neighbors[i])
  {
    assert neighbors[..i + 1][..i] == neighbors[..i];
  }

  /** Nothing left to expand, everything seen, or only hopeless candidates left. */
  predicate Done(p: Problem, w: Work)
    requires w.best != []
  {
    || w.candidates == []
    || |w.visited| >= |p.g|
    || (|w.best| >= p.ef && w.candidates[0].score < w.best[|w.best| - 1].score)
  }

  /** Expanding the best candidate. */
  function Expand(p: Problem, w: Work): (r: Work)
    requires w.best != [] && w.candidates != [] && p.ef >= 1
    ensures r.best != []
    ensures |r.visited| > |w.visited| || (r.visited == w.visited && |r.candidates| < |w.candidates|)
  {
    var current, rest := w.candidates[0], w.(candidates := w.candidates[1..]);
    if current.id !in p.g then rest
    else
      var r := VisitAll(p, w.best[|w.best| - 1].score, rest, p.g[current.id].neighbors);
      SubsetCard(w.visited, r.visited);
      r
  }

  function Traverse(p: Problem, w: Work): Work
    requires w.best != [] && p.ef >= 1
    decreases |p.g| - |w.visited|, |w.candidates|
  {
    if Done(p, w) then w else Traverse(p, Expand(p, w))
  }

  lemma TraverseStep(p: Problem, w: Work)
    requires w.best != [] && p.ef >= 1
    ensures Traverse(p, w) == if Done(p, w) then w else Traverse(p, Expand(p, w))
  {
  }

  function Seed(p: Problem, entry: Id): Work
    requires entry in p.g
  {
    var hit := Hit(entry, p.Score(entry));
    Work([hit], [hit], {entry})
  }

  function Search(p: Problem, entry: Id): Work
    requires entry in p.g && p.ef >= 1
  {
    Traverse(p, Seed(p, entry))
  }

  // ---- what the search keeps true between two expansions ----

  ghost predicate SearchInvariant(p: Problem, entry: Id, w: Work, expanded: set<Id>) {
    entry in p.g && entry in w.visited && ListsOk(p, w) && SeenOk(p, entry, w) && NothingForgotten(p, w, expanded)
  }

  ghost predicate ListsOk(p: Problem, w: Work) {
    && SortedDesc(w.candidates) && p.True(w.candidates)
    && SortedDesc(w.best) && p.True(w.best) && DistinctIds(w.best)
    && 1 <= |w.best| <= p.ef
    && Ids(w.candidates) <= w.visited && Ids(w.best) <= w.visited
  }

  ghost predicate SeenOk(p: Problem, entry: Id, w: Work)
    requires w.best != []
  {
    forall x :: x in w.visited && x in p.g ==> Reachable(p.g, entry, x) && p.Score(x) <= w.best[0].score
  }

  /** Every hit was expanded or will be, and until the result list is full so was everything seen. */
  ghost predicate NothingForgotten(p: Problem, w: Work, expanded: set<Id>) {
    && Ids(w.best) <= expanded + Ids(w.candidates)
    && (|w.best| < p.ef ==> w.visited * p.g.Keys <= expanded + Ids(w.candidates))
  }

  ghost predicate NeighborsVisited(g: Graph, expanded: set<Id>, visited: set<Id>) {
    forall x, y :: x in expanded && x in g && y in g[x].neighbors ==> y in visited
  }

  ghost predicate DegreeWithin(g: Graph, limit: nat) { forall a :: a in g ==> |g[a].neighbors| <= limit }

  /** Whatever was visited and is not in the result list was dropped or skipped once the list was full, and is then no
      better than the first `ef - limit + 1` hits: the stale score can only be undercut by hits of the same expansion.
      */
  ghost predicate Covered(p: Problem, limit: nat, w: Work) {
    forall x :: x in w.visited && x in p.g && x !in Ids(w.best) ==>
      && |w.best| == p.ef
      && (1 <= limit <= p.ef && DegreeWithin(p.g, limit) ==> p.Score(x) <= w.best[p.ef - limit].score)
  }

  /** After `i` neighbours: at most `i` hits have come to the `m` that were there, whose ranks are no worse than
      `worst`. */
  ghost predicate Filling(w: Work, worst: real, m: nat, i: nat) {
    m <= |w.best| <= m + i && forall t :: 0 <= t < m ==> w.best[t].score >= worst
  }

  lemma SkipKeeps(p: Problem, entry: Id, limit: nat, w: Work, expanded: set<Id>, from: Id, id: Id, worst: real,
                  m: nat, i: nat)
    requires SearchInvariant(p, entry, w, expanded) && Covered(p, limit, w) && Filling(w, worst, m, i) && m >= 1
    requires from in w.visited && from in p.g && id in p.g[from].neighbors && i < |p.g[from].neighbors|
    requires id in p.g ==> |w.best| >= p.ef && p.Score(id) <= worst
    ensures var r := w.(visited := w.visited + {id});
            SearchInvariant(p, entry, r, expanded) && Covered(p, limit, r) && Filling(r, worst, m, i + 1)
  {
    if id in p.g { ReachableStep(p.g, entry, from, id); }
  }

  lemma OfferKeepsLists(p: Problem, w: Work, hit: Hit)
    requires ListsOk(p, w) && hit.id !in w.visited && hit.id in p.g && hit.score == p.Score(hit.id)
    ensures ListsOk(p, Offered(p, w, hit))
  {
    hide Pushed, PushedBest;
    PushedFacts(w.candidates, hit);
    PushedBestFacts(w.best, hit, p.ef);
    ScoresStayTrue(p, w.candidates, hit, Pushed(w.candidates, hit));
    ScoresStayTrue(p, w.best, hit, PushedBest(w.best, hit, p.ef));
    OfferIds(p, w, hit);
    hide Ids, SortedDesc, DistinctIds, TrueScores;
  }

  lemma ScoresStayTrue(p: Problem, items: seq<Hit>, hit: Hit, after: seq<Hit>)
    requires p.True(items) && hit.id in p.g && hit.score == p.Score(hit.id)
    requires forall h :: h in after ==> h == hit || h in items
    ensures p.True(after)
  {
  }

  lemma OfferKeepsSeen(p: Problem, entry: Id, w: Work, from: Id, hit: Hit)
    requires ListsOk(p, w) && SeenOk(p, entry, w) && hit.id !in w.visited && hit.id in p.g
        && hit.score == p.Score(hit.id)
    requires from in w.visited && from in p.g && hit.id in p.g[from].neighbors
    ensures Offered(p, w, hit).best != [] && SeenOk(p, entry, Offered(p, w, hit))
  {
    hide Pushed, PushedBest, Reachable;
    PushedBestFacts(w.best, hit, p.ef);
    ReachableStep(p.g, entry, from, hit.id);
  }

  lemma OfferIds(p: Problem, w: Work, hit: Hit)
    requires ListsOk(p, w) && hit.id !in w.visited
    ensures var r := Offered(p, w, hit);
            Ids(r.candidates) == Ids(w.candidates) + {hit.id} && Ids(r.best) <= Ids(w.best) + {hit.id}
                && |r.best| >= |w.best|
  {
    hide Pushed, PushedBest;
    PushedFacts(w.candidates, hit);
    PushedBestFacts(w.best, hit, p.ef);
  }

  lemma OfferForgetsNothing(p: Problem, w: Work, expanded: set<Id>, hit: Hit)
    requires ListsOk(p, w) && NothingForgotten(p, w, expanded) && hit.id !in w.visited && hit.id in p.g
    ensures NothingForgotten(p, Offered(p, w, hit), expanded)
  {
    hide Pushed, PushedBest, ListsOk, Ids;
    OfferIds(p, w, hit);
    var r := Offered(p, w, hit);
    CarriedOver(Ids(w.best), expanded, Ids(w.candidates), hit.id, Ids(r.best), Ids(r.candidates));
    if |w.best| < p.ef {
      CarriedOver(w.visited * p.g.Keys, expanded, Ids(w.candidates), hit.id, r.visited * p.g.Keys, Ids(r.candidates));
    }
  }

  lemma CarriedOver(part: set<Id>, expanded: set<Id>, waiting: set<Id>, id: Id, part': set<Id>, waiting': set<Id>)
    requires part <= expanded + waiting && part' <= part + {id} && waiting' == waiting + {id}
    ensures part' <= expanded + waiting'
  {
  }

  lemma OfferKeepsFilling(p: Problem, w: Work, hit: Hit, worst: real, m: nat, i: nat)
    requires ListsOk(p, w) && Filling(w, worst, m, i) && hit.id !in w.visited
    ensures Filling(Offered(p, w, hit), worst, m, i + 1)
  {
    hide Pushed, PushedBest;
    PushedBestFacts(w.best, hit, p.ef);
  }

  lemma OfferKeepsCovered(p: Problem, limit: nat, w: Work, hit: Hit)
    requires ListsOk(p, w) && Covered(p, limit, w)
    requires hit.id !in w.visited && hit.id in p.g && hit.score == p.Score(hit.id)
    ensures Covered(p, limit, Offered(p, w, hit))
  {
    hide PushedBest, Pushed, DegreeWithin, ListsOk;
    var best := PushedBest(w.best, hit, p.ef);
    forall x | x in w.visited + {hit.id} && x in p.g && x !in Ids(best)
      ensures |best| == p.ef
      ensures 1 <= limit <= p.ef && DegreeWithin(p.g, limit) ==> p.Score(x) <= best[p.ef - limit].score
    {
      OfferCoversOne(p, limit, w, hit, x);
    }
  }

  lemma OfferCoversOne(p: Problem, limit: nat, w: Work, hit: Hit, x: Id)
    requires ListsOk(p, w) && Covered(p, limit, w)
    requires hit.id !in w.visited && hit.id in p.g && hit.score == p.Score(hit.id)
    requires x in w.visited + {hit.id} && x in p.g && x !in Ids(PushedBest(w.best, hit, p.ef))
    ensures var best := PushedBest(w.best, hit, p.ef);
            && |best| == p.ef
            && (1 <= limit <= p.ef && DegreeWithin(p.g, limit) ==> p.Score(x) <= best[p.ef - limit].score)
  {
    hide PushedBest, Pushed, DegreeWithin, ListsOk;
    OfferRanks(p, w, hit);
    if x !in w.visited || x in Ids(w.best) {
      NotKept(p, w, hit, x);
    }
  }

  /** No rank of the result list falls. */
  lemma OfferRanks(p: Problem, w: Work, hit: Hit)
    requires ListsOk(p, w) && hit.id !in w.visited
    ensures var best := PushedBest(w.best, hit, p.ef);
            && |w.best| <= |best| <= p.ef
            && (forall t :: 0 <= t < |w.best| ==> best[t].score >= w.best[t].score)
  {
    hide PushedBest;
    PushedBestFacts(w.best, hit, p.ef);
  }

  /** What is missing from the list after an offer was missing before, or was just dropped. */
  lemma NotKept(p: Problem, w: Work, hit: Hit, x: Id)
    requires ListsOk(p, w) && hit.id !in w.visited && hit.id in p.g && hit.score == p.Score(hit.id)
    requires x in w.visited + {hit.id} && x in p.g && x !in Ids(PushedBest(w.best, hit, p.ef))
    ensures var best := PushedBest(w.best, hit, p.ef);
            x !in w.visited || x in Ids(w.best) ==> |best| == p.ef && forall h :: h in best ==> p.Score(x) <= h.score
  {
    hide Pushed, PushedBest;
    PushedBestFacts(w.best, hit, p.ef);
    var best := PushedBest(w.best, hit, p.ef);
    if x in Ids(w.best) {
      var t := PositionOf(w.best, x);
      assert w.best[t] in w.best && w.best[t] !in best;
    }
  }

  lemma OneKeeps(p: Problem, entry: Id, limit: nat, w: Work, expanded: set<Id>, from: Id, id: Id, worst: real, m: nat,
                 i: nat)
    requires SearchInvariant(p, entry, w, expanded) && Covered(p, limit, w) && Filling(w, worst, m, i) && m >= 1
    requires from in w.visited && from in p.g && id in p.g[from].neighbors && i < |p.g[from].neighbors|
    ensures var r := VisitOne(p, worst, w, id);
            SearchInvariant(p, entry, r, expanded) && Covered(p, limit, r) && Filling(r, worst, m, i + 1)
  {
    hide ListsOk, SeenOk, NothingForgotten, Covered, Pushed, PushedBest;
    NotEmpty(p, entry, w, expanded);
    if id in w.visited {
    } else if id in p.g && (|w.best| < p.ef || p.Score(id) > worst) {
      var hit := Hit(id, p.Score(id));
      OfferKeepsLists(p, w, hit);
      OfferKeepsSeen(p, entry, w, from, hit);
      OfferForgetsNothing(p, w, expanded, hit);
      OfferKeepsCovered(p, limit, w, hit);
      OfferKeepsFilling(p, w, hit, worst, m, i);
    } else {
      SkipKeeps(p, entry, limit, w, expanded, from, id, worst, m, i);
    }
  }

  lemma {:induction false} AllKeep(p: Problem, entry: Id, limit: nat, w: Work, expanded: set<Id>, from: Id,
                              worst: real, n: nat)
    requires SearchInvariant(p, entry, w, expanded) && Covered(p, limit, w) && Filling(w, worst, |w.best|, 0)
    requires from in w.visited && from in p.g && n <= |p.g[from].neighbors|
    ensures var r := VisitAll(p, worst, w, p.g[from].neighbors[..n]);
            SearchInvariant(p, entry, r, expanded) && Covered(p, limit, r) && Filling(r, worst, |w.best|, n)
  {
    hide SearchInvariant, Covered, Filling, VisitOne;
    if n > 0 {
      AllKeep(p, entry, limit, w, expanded, from, worst, n - 1);
      var neighbors := p.g[from].neighbors;
      assert neighbors[..n][..n - 1] == neighbors[..n - 1];
      NotEmpty(p, entry, w, expanded);
      OneKeeps(p, entry, limit, VisitAll(p, worst, w, neighbors[..n - 1]), expanded, from, neighbors[n - 1], worst,
          |w.best|, n - 1);
    }
  }

  lemma NotEmpty(p: Problem, entry: Id, w: Work, expanded: set<Id>)
    requires SearchInvariant(p, entry, w, expanded)
    ensures |w.best| >= 1 && p.ef >= 1
  {
  }

  lemma TakeKeeps(p: Problem, entry: Id, w: Work, expanded: set<Id>)
    requires SearchInvariant(p, entry, w, expanded) && w.candidates != []
    ensures w.candidates[0].id in w.visited && w.candidates[0].id in p.g
    ensures SearchInvariant(p, entry, w.(candidates := w.candidates[1..]), expanded + {w.candidates[0].id})
  {
    hide SeenOk, ListsOk, NothingForgotten, Ids;
    TakeKeepsLists(p, w);
    TakeForgetsNothing(p, w, expanded);
    SameSeen(p, entry, w, w.candidates[1..]);
  }

  lemma TakeKeepsLists(p: Problem, w: Work)
    requires ListsOk(p, w) && w.candidates != []
    ensures w.candidates[0].id in w.visited && w.candidates[0].id in p.g
    ensures ListsOk(p, w.(candidates := w.candidates[1..]))
  {
    assert w.candidates[0] in w.candidates;
    assert forall h :: h in w.candidates[1..] ==> h in w.candidates;
  }

  lemma TakeForgetsNothing(p: Problem, w: Work, expanded: set<Id>)
    requires NothingForgotten(p, w, expanded) && w.candidates != []
    ensures NothingForgotten(p, w.(candidates := w.candidates[1..]), expanded + {w.candidates[0].id})
  {
    FirstId(w.candidates);
    hide Ids;
  }

  lemma FirstId(hits: seq<Hit>)
    requires hits != []
    ensures Ids(hits) == Ids(hits[1..]) + {hits[0].id}
  {
    assert hits == [hits[0]] + hits[1..];
  }

  lemma SameSeen(p: Problem, entry: Id, w: Work, candidates: seq<Hit>)
    requires w.best != [] && SeenOk(p, entry, w)
    ensures SeenOk(p, entry, w.(candidates := candidates))
  {
  }

  /** An expansion begins with its result list unfilled by it. */
  lemma ExpansionStarts(p: Problem, limit: nat, w: Work, candidates: seq<Hit>)
    requires ListsOk(p, w) && Covered(p, limit, w)
    ensures Covered(p, limit, w.(candidates := candidates))
    ensures Filling(w.(candidates := candidates), w.best[|w.best| - 1].score, |w.best|, 0)
  {
  }

  lemma ExpandKeeps(p: Problem, entry: Id, limit: nat, w: Work, expanded: set<Id>)
    requires SearchInvariant(p, entry, w, expanded) && Covered(p, limit, w) && w.candidates != []
    requires NeighborsVisited(p.g, expanded, w.visited)
    requires Closed(p.g) ==> w.visited <= p.g.Keys
    ensures w.best != [] && p.ef >= 1
    ensures var r, done := Expand(p, w), expanded + {w.candidates[0].id};
            && SearchInvariant(p, entry, r, done) && Covered(p, limit, r)
            && NeighborsVisited(p.g, done, r.visited)
            && (Closed(p.g) ==> r.visited <= p.g.Keys)
  {
    hide ListsOk, SeenOk, NothingForgotten, Covered, Filling, VisitAll, NeighborsVisited, Closed;
    NotEmpty(p, entry, w, expanded);
    TakeKeeps(p, entry, w, expanded);
    var current, rest := w.candidates[0].id, w.(candidates := w.candidates[1..]);
    ExpansionStarts(p, limit, w, rest.candidates);
    var neighbors := p.g[current].neighbors;
    AllKeep(p, entry, limit, rest, expanded + {current}, current, w.best[|w.best| - 1].score, |neighbors|);
    assert neighbors[..|neighbors|] == neighbors;
    ExpansionVisitsNeighbors(p.g, expanded, w.visited, current, Expand(p, w).visited);
    if Closed(p.g) { NeighborsAreStored(p.g, current); }
  }

  lemma ExpansionVisitsNeighbors(g: Graph, done: set<Id>, before: set<Id>, id: Id, visited: set<Id>)
    requires NeighborsVisited(g, done, before) && before <= visited
    requires id in g && Elems(g[id].neighbors) <= visited
    ensures NeighborsVisited(g, done + {id}, visited)
  {
    forall y | y in g[id].neighbors ensures y in visited { assert y in Elems(g[id].neighbors); }
  }

  lemma NeighborsAreStored(g: Graph, id: Id)
    requires Closed(g) && id in g
    ensures Elems(g[id].neighbors) <= g.Keys
  {
  }

  /** The result of a finished search. */
  ghost predicate IsBestList(p: Problem, entry: Id, w: Work)
    requires entry in p.g
  {
    && SortedDesc(w.best) && DistinctIds(w.best) && p.True(w.best)
    && 1 <= |w.best| <= p.ef
    && entry in w.visited && Ids(w.best) <= w.visited
    && (forall x :: x in w.visited && x in p.g ==> x in ReachableSet(p.g, entry) && p.Score(x) <= w.best[0].score)
    && (forall limit: nat :: Covered(p, limit, w))
    && (Closed(p.g) ==>
          && w.visited <= p.g.Keys
          && (forall h, y :: h in w.best && y in p.g[h.id].neighbors ==> y in w.visited)
          && (|w.best| < p.ef ==> Ids(w.best) == ReachableSet(p.g, entry)))
  }

  /** A stopped search of a closed graph has visited every neighbour of everything in its result list. */
  lemma StoppedListIsBest(p: Problem, entry: Id, w: Work, expanded: set<Id>)
    requires SearchInvariant(p, entry, w, expanded) && forall limit: nat :: Covered(p, limit, w)
    requires NeighborsVisited(p.g, expanded, w.visited)
    requires w.best != [] && Done(p, w)
    requires Closed(p.g) ==> w.visited <= p.g.Keys
    ensures IsBestList(p, entry, w)
  {
    if Closed(p.g) {
      HitsWereExpanded(p, entry, w, expanded);
      if |w.best| < p.ef {
        assert Covered(p, 0, w);
        assert Ids(w.best) == w.visited;
        if |w.visited| >= |p.g| {
          SubsetCard(w.visited, p.g.Keys);
        } else {
          assert w.candidates == [];
          ReachableInside(p.g, entry, w.visited);
        }
      }
    }
  }

  lemma HitsWereExpanded(p: Problem, entry: Id, w: Work, expanded: set<Id>)
    requires SearchInvariant(p, entry, w, expanded) && NeighborsVisited(p.g, expanded, w.visited)
    requires w.best != [] && Done(p, w) && Closed(p.g) && w.visited <= p.g.Keys
    ensures forall h, y :: h in w.best && y in p.g[h.id].neighbors ==> y in w.visited
  {
    hide SeenOk;
    forall h, y | h in w.best && y in p.g[h.id].neighbors ensures y in w.visited {
      if |w.visited| >= |p.g| {
        SubsetCard(w.visited, p.g.Keys);
      } else {
        assert h.id in Ids(w.best);
        NotWaiting(p, w, h);
      }
    }
  }

  /** When only hopeless candidates are left, no hit is among them. */
  lemma NotWaiting(p: Problem, w: Work, h: Hit)
    requires ListsOk(p, w) && Done(p, w) && |w.visited| < |p.g| && h in w.best
    ensures h.id !in Ids(w.candidates)
  {
    var i :| 0 <= i < |w.best| && w.best[i] == h;
    assert h.score >= w.best[|w.best| - 1].score;
    forall c | c in w.candidates ensures c.score < h.score {
      assert c.score <= w.candidates[0].score;
    }
  }

  lemma {:induction false} TraversalIsBest(p: Problem, entry: Id, w: Work, expanded: set<Id>)
    requires SearchInvariant(p, entry, w, expanded) && forall limit: nat :: Covered(p, limit, w)
    requires NeighborsVisited(p.g, expanded, w.visited)
    requires Closed(p.g) ==> w.visited <= p.g.Keys
    ensures w.best != [] && p.ef >= 1 && IsBestList(p, entry, Traverse(p, w))
    decreases |p.g| - |w.visited|, |w.candidates|
  {
    hide SearchInvariant, Covered, NeighborsVisited, IsBestList, Expand;
    NotEmpty(p, entry, w, expanded);
    if Done(p, w) {
      StoppedListIsBest(p, entry, w, expanded);
    } else {
      forall limit: nat ensures Covered(p, limit, Expand(p, w)) {
        ExpandKeeps(p, entry, limit, w, expanded);
      }
      ExpandKeeps(p, entry, 0, w, expanded);
      TraversalIsBest(p, entry, Expand(p, w), expanded + {w.candidates[0].id});
    }
  }

  lemma SearchIsBest(p: Problem, entry: Id)
    requires entry in p.g && p.ef >= 1
    ensures IsBestList(p, entry, Search(p, entry))
  {
    hide IsBestList, Traverse;
    ReachableSelf(p.g, entry);
    TraversalIsBest(p, entry, Seed(p, entry), {});
  }

  // ---- what an answer is worth ----

  /** Nothing left out of `pool` beats anything in the result. */
  ghost predicate NoneBetter(p: Problem, result: seq<Hit>, pool: set<Id>) {
    forall x, h :: x in pool && x in p.g && x !in Ids(result) && h in result ==> p.Score(x) <= h.score
  }

  /** The result list is long enough for its first hits to be safe from the stale score. */
  predicate Ample(ef: nat, k: int, limit: nat) {
    SliceCount(ef, k) <= 1 || SliceCount(ef, k) + limit <= ef + 1
  }

  ghost predicate BestOfVisited(p: Problem, k: int, result: seq<Hit>, visited: set<Id>) {
    forall limit: nat :: limit >= 1 && DegreeWithin(p.g, limit) && Ample(p.ef, k, limit) ==>
        NoneBetter(p, result, visited)
  }

  /** What a search promises about any index, and what it promises once every link leads somewhere. */
  ghost predicate IsAnswer(p: Problem, entry: Id, k: int, result: seq<Hit>)
    requires entry in p.g
  {
    && p.ef >= 1
    && var reachable, found := ReachableSet(p.g, entry), Search(p, entry);
    && result == found.best[..SliceCount(|found.best|, k)]
    && SortedDesc(result) && DistinctIds(result) && p.True(result)
    && Ids(result) <= reachable && Ids(result) <= found.visited
    && (k >= 0 ==> |result| == Min(k, |found.visited * p.g.Keys|))
    // nothing visited beats the best hit, and with an ample list nothing visited and left out beats any hit
    && (result != [] ==> forall x :: x in found.visited && x in p.g ==> p.Score(x) <= result[0].score)
    && BestOfVisited(p, k, result, found.visited)
    // on a closed graph every neighbour of a hit was visited, and no hit is missing while reachable nodes remain
    && (Closed(p.g) ==> forall h, y :: h in result && y in p.g[h.id].neighbors ==> y in found.visited)
    && (Closed(p.g) && k >= 0 ==> |result| == Min(k, |reachable|))
    // a list with room for everything reachable makes the search exact
    && (Closed(p.g) && |reachable| <= p.ef ==> IsTopK(result, reachable, k, Vectors(p.g), p.sim, p.query))
  }

  /** When the list can hold everything reachable, the search is the exact top-k. */
  lemma WideSearchIsExact(p: Problem, entry: Id, best: seq<Hit>, k: int)
    requires entry in p.g
    requires SortedDesc(best) && p.True(best) && DistinctIds(best)
    requires |best| <= p.ef && Ids(best) <= ReachableSet(p.g, entry)
    requires |best| < p.ef ==> Ids(best) == ReachableSet(p.g, entry)
    requires |ReachableSet(p.g, entry)| <= p.ef
    ensures IsTopK(best[..SliceCount(|best|, k)], ReachableSet(p.g, entry), k, Vectors(p.g), p.sim, p.query)
  {
    IdsCard(best);
    if |best| == p.ef {
      SubsetCard(Ids(best), ReachableSet(p.g, entry));
    }
    PrefixIsTopK(best, ReachableSet(p.g, entry), k, Vectors(p.g), p.sim, p.query);
  }

  /** With an ample list the stale score does no harm: the hits are the best of everything visited. */
  lemma AmpleListIsBest(p: Problem, entry: Id, w: Work, k: int, limit: nat)
    requires entry in p.g && IsBestList(p, entry, w)
    requires limit >= 1 && DegreeWithin(p.g, limit) && Ample(p.ef, k, limit)
    ensures NoneBetter(p, w.best[..SliceCount(|w.best|, k)], w.visited)
  {
    hide IsBestList;
    var n := SliceCount(|w.best|, k);
    forall x, h | x in w.visited && x in p.g && x !in Ids(w.best[..n]) && h in w.best[..n]
        ensures p.Score(x) <= h.score {
      var j :| 0 <= j < n && w.best[j] == h;
      if x in Ids(w.best) {
        RankedBelow(p, entry, w, n, x, j);
      } else {
        MissedBelow(p, entry, w, k, limit, x, j);
      }
    }
  }

  lemma MissedBelow(p: Problem, entry: Id, w: Work, k: int, limit: nat, x: Id, j: nat)
    requires entry in p.g && IsBestList(p, entry, w)
    requires limit >= 1 && DegreeWithin(p.g, limit) && Ample(p.ef, k, limit) && j < SliceCount(|w.best|, k)
    requires x in w.visited && x in p.g && x !in Ids(w.best)
    ensures p.Score(x) <= w.best[j].score
  {
    hide Closed, ReachableSet, DistinctIds, TrueScores;
    assert Covered(p, limit, w);
    hide DegreeWithin;
  }

  lemma AmpleLists(p: Problem, entry: Id, w: Work, k: int)
    requires entry in p.g && IsBestList(p, entry, w)
    ensures BestOfVisited(p, k, w.best[..SliceCount(|w.best|, k)], w.visited)
  {
    hide IsBestList, NoneBetter;
    forall limit: nat | limit >= 1 && DegreeWithin(p.g, limit) && Ample(p.ef, k, limit)
      ensures NoneBetter(p, w.best[..SliceCount(|w.best|, k)], w.visited)
    {
      AmpleListIsBest(p, entry, w, k, limit);
    }
  }

  /** What the index itself relies on. */
  lemma AnswerFacts(p: Problem, entry: Id, k: nat, result: seq<Hit>)
    requires entry in p.g && IsAnswer(p, entry, k, result)
    ensures DistinctIds(result) && Ids(result) <= p.g.Keys && |result| <= k
    ensures Closed(p.g) ==> |result| == Min(k, |ReachableSet(p.g, entry)|) && Ids(result) <= ReachableSet(p.g, entry)
  {
    hide Search, BestOfVisited;
  }

  lemma RankedBelow(p: Problem, entry: Id, w: Work, n: nat, x: Id, j: nat)
    requires entry in p.g && IsBestList(p, entry, w) && j < n <= |w.best|
    requires x in Ids(w.best) && x !in Ids(w.best[..n])
    ensures x in p.g && p.Score(x) <= w.best[j].score
  {
    hide Closed, ReachableSet, Covered;
    assert forall t :: 0 <= t < n ==> w.best[t] in w.best[..n];
    var i := PositionOf(w.best, x);
    assert w.best[i] in w.best;
  }

  lemma ListCount(p: Problem, entry: Id, w: Work)
    requires entry in p.g && IsBestList(p, entry, w)
    ensures |w.best| == Min(p.ef, |w.visited * p.g.Keys|)
    ensures Ids(w.best) <= w.visited * p.g.Keys
  {
    IdsCard(w.best);
    forall h | h in w.best ensures h.id in p.g {}
    SubsetCard(Ids(w.best), w.visited * p.g.Keys);
    if |w.best| < p.ef {
      assert Covered(p, 0, w);
      assert Ids(w.best) == w.visited * p.g.Keys;
    }
  }

  lemma SearchAnswers(p: Problem, entry: Id, k: int)
    requires entry in p.g && p.ef >= 1 && k <= p.ef
    ensures var found := Search(p, entry);
            IsAnswer(p, entry, k, found.best[..SliceCount(|found.best|, k)])
  {
    hide Search, IsBestList, BestOfVisited, Closed, IsTopK;
    SearchIsBest(p, entry);
    var found := Search(p, entry);
    PrefixFacts(p, entry, found, k);
    AmpleLists(p, entry, found, k);
    if Closed(p.g) { ClosedAnswers(p, entry, found, k); }
  }

  lemma PrefixFacts(p: Problem, entry: Id, w: Work, k: int)
    requires entry in p.g && p.ef >= 1 && k <= p.ef && IsBestList(p, entry, w)
    ensures var result := w.best[..SliceCount(|w.best|, k)];
            && SortedDesc(result) && DistinctIds(result) && p.True(result)
            && Ids(result) <= ReachableSet(p.g, entry) && Ids(result) <= w.visited
            && (k >= 0 ==> |result| == Min(k, |w.visited * p.g.Keys|))
            && (result != [] ==> forall x :: x in w.visited && x in p.g ==> p.Score(x) <= result[0].score)
            && (Closed(p.g) ==> forall h, y :: h in result && y in p.g[h.id].neighbors ==> y in w.visited)
  {
    hide Covered, ReachableSet;
    ListCount(p, entry, w);
    assert forall h :: h in w.best[..SliceCount(|w.best|, k)] ==> h in w.best;
  }

  lemma ClosedAnswers(p: Problem, entry: Id, w: Work, k: int)
    requires entry in p.g && p.ef >= 1 && k <= p.ef && IsBestList(p, entry, w) && Closed(p.g)
    ensures var result, reachable := w.best[..SliceCount(|w.best|, k)], ReachableSet(p.g, entry);
            && (k >= 0 ==> |result| == Min(k, |reachable|))
            && (|reachable| <= p.ef ==> IsTopK(result, reachable, k, Vectors(p.g), p.sim, p.query))
  {
    hide Covered;
    IdsCard(w.best);
    assert forall h :: h in w.best ==> h.id in p.g && h.id in w.visited;
    SubsetCard(Ids(w.best), ReachableSet(p.g, entry));
    if |ReachableSet(p.g, entry)| <= p.ef { WideSearchIsExact(p, entry, w.best, k); }
  }
}

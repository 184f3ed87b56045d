/** How far a search goes: which nodes it expands, what an expansion takes in, and when it stops. */
module SearchExtent {
  import opened Common
  import opened NeighborGraph
  import opened BestFirstSearch

  // ---- one turn, said of sets of nodes ----

  predicate IsNew(p: Problem, w: Work, id: Id) { id in p.g && id !in w.visited }

  /** How many of the first `i` neighbours are stored and not yet visited. */
  function NewBefore(p: Problem, w: Work, neighbors: seq<Id>, i: nat): nat
    requires i <= |neighbors|
  {
    if i == 0 then 0 else NewBefore(p, w, neighbors, i - 1) + (if IsNew(p, w, neighbors[i - 1]) then 1 else 0)
  }

  /** A new neighbour is taken in while the result list has room, and after that only if it beats the worst hit the
      list had before the turn. */
  predicate Admits(p: Problem, w: Work, neighbors: seq<Id>, i: nat)
    requires w.best != [] && i < |neighbors|
  {
    && IsNew(p, w, neighbors[i])
    && (|w.best| + NewBefore(p, w, neighbors, i) < p.ef || p.Score(neighbors[i]) > w.best[|w.best| - 1].score)
  }

  ghost function Admitted(p: Problem, w: Work, neighbors: seq<Id>, n: nat): set<Id>
    requires w.best != [] && n <= |neighbors|
  {
    set i | 0 <= i < n && Admits(p, w, neighbors, i) :: neighbors[i]
  }

  /** `r` is what the first `n` neighbours make of `w`: all of them visited, the admitted ones waiting, and the result
      list as full as it can be, with nothing given up for anything worse. */
  ghost predicate TakenIn(p: Problem, w: Work, neighbors: seq<Id>, n: nat, r: Work)
    requires w.best != [] && n <= |neighbors|
  {
    var offered := Ids(w.best) + Admitted(p, w, neighbors, n);
    && r.visited == w.visited + Elems(neighbors[..n])
    && Ids(r.candidates) == Ids(w.candidates) + Admitted(p, w, neighbors, n)
    && |r.best| == Min(p.ef, |w.best| + NewBefore(p, w, neighbors, n))
    && KeepsBest(p, offered, r.best)
  }

  /** The list keeps of what it was offered all it has room for, and gives up nothing for anything worse. */
  ghost predicate KeepsBest(p: Problem, offered: set<Id>, best: seq<Hit>) {
    && Ids(best) <= offered && (|best| < p.ef ==> Ids(best) == offered)
    && (forall x, h :: x in offered && x !in Ids(best) && h in best ==> x in p.g && p.Score(x) <= h.score)
  }

  /** A candidate is worth expanding as long as the result list has room or holds nothing better throughout. */
  ghost predicate Hopeful(p: Problem, w: Work, h: Hit) {
    |w.best| < p.ef || (w.best != [] && h.score >= w.best[|w.best| - 1].score)
  }

  /** From `w` to `w'` the best candidate was expanded, and it was worth it. */
  ghost predicate Turn(p: Problem, w: Work, w': Work) {
    && w.candidates != [] && w.best != [] && SortedDesc(w.candidates) && SortedDesc(w.best)
    && |w.visited| < |p.g|
    && var current := w.candidates[0];
       && Hopeful(p, w, current) && current.id in p.g
       && var neighbors := p.g[current.id].neighbors;
          TakenIn(p, w.(candidates := w.candidates[1..]), neighbors, |neighbors|, w')
  }

  /** The search ends when nothing waits, when everything has been seen, or when nothing that waits is worth it. */
  ghost predicate Finished(p: Problem, w: Work) {
    |w.visited| >= |p.g| || forall c :: c in w.candidates ==> !Hopeful(p, w, c)
  }

  /** The node an expansion of `w` is about. */
  function Chosen(w: Work): Option<Id> { if w.candidates == [] then None else Some(w.candidates[0].id) }

  /** A search turn by turn, from `w` to the end; no node is expanded twice. */
  ghost predicate IsRun(p: Problem, w: Work, works: seq<Work>) {
    && works != [] && works[0] == w
    && (forall i :: 0 <= i < |works| - 1 ==> Turn(p, works[i], works[i + 1]))
    && Finished(p, works[|works| - 1])
    && (forall i, j :: 0 <= i < j < |works| - 1 ==> Chosen(works[i]) != Chosen(works[j]))
  }

  ghost predicate NeighborSets(g: Graph) { forall a :: a in g ==> NoDup(g[a].neighbors) }

  /** `w` is what a search from `entry` alone comes to. */
  ghost predicate Reaches(p: Problem, entry: Id, w: Work)
    requires entry in p.g
  {
    var hit := Hit(entry, p.Score(entry));
    exists works :: IsRun(p, Work([hit], [hit], {entry}), works) && works[|works| - 1] == w
  }

  /** The first `k` hits of a search from `entry` that visits `count` nodes; a negative `k` leaves out the last `-k`. */
  ghost predicate Finds(p: Problem, entry: Id, k: int, hits: seq<Hit>, count: nat)
    requires entry in p.g
  {
    exists w :: Reaches(p, entry, w) && hits <= w.best && count == |w.visited|
                && |hits| == if k >= 0 then Min(k, |w.best|) else Max(0, |w.best| + k)
  }

  // ---- the loop over the neighbours ----

  lemma TakesNothing(p: Problem, w: Work, neighbors: seq<Id>)
    requires ListsOk(p, w)
    ensures TakenIn(p, w, neighbors, 0, w)
  {
  }

  lemma AdmittedStep(p: Problem, w: Work, neighbors: seq<Id>, n: nat)
    requires w.best != [] && n < |neighbors|
    ensures Admitted(p, w, neighbors, n + 1)
         == Admitted(p, w, neighbors, n) + (if Admits(p, w, neighbors, n) then {neighbors[n]} else {})
  {
  }

  /** A neighbour that is not taken in. */
  lemma PassesBy(p: Problem, w: Work, neighbors: seq<Id>, n: nat, r: Work)
    requires ListsOk(p, w) && ListsOk(p, r) && n < |neighbors| && TakenIn(p, w, neighbors, n, r)
    requires !Admits(p, w, neighbors, n)
    requires IsNew(p, w, neighbors[n]) ==> |r.best| >= p.ef
    ensures var r' := r.(visited := r.visited + {neighbors[n]});
            TakenIn(p, w, neighbors, n + 1, r') && ListsOk(p, r')
  {
    hide Admits, SortedDesc, DistinctIds, TrueScores, KeepsBest;
    AdmittedStep(p, w, neighbors, n);
    ElemsStep(neighbors, n);
    SeesMore(p, r, neighbors[n]);
    hide Admitted, ListsOk, Ids, Elems;
    assert Admitted(p, w, neighbors, n + 1) == Admitted(p, w, neighbors, n);
    assert r.visited + {neighbors[n]} == w.visited + Elems(neighbors[..n + 1]);
  }

  lemma SeesMore(p: Problem, r: Work, id: Id)
    requires ListsOk(p, r)
    ensures ListsOk(p, r.(visited := r.visited + {id}))
    ensures 1 <= |r.best| <= p.ef
  {
  }

  /** What pushing a hit on the result list does to it. */
  lemma OfferedList(p: Problem, r: Work, offered: set<Id>, hit: Hit)
    requires ListsOk(p, r) && hit.id !in r.visited && hit.id in p.g && hit.score == p.Score(hit.id)
    requires KeepsBest(p, offered, r.best) && hit.id !in offered
    ensures KeepsBest(p, offered + {hit.id}, PushedBest(r.best, hit, p.ef))
    ensures |PushedBest(r.best, hit, p.ef)| == Min(p.ef, |r.best| + 1)
  {
    hide Pushed, PushedBest;
    var best, all := PushedBest(r.best, hit, p.ef), offered + {hit.id};
    forall x, h | x in all && x !in Ids(best) && h in best ensures x in p.g && p.Score(x) <= h.score {
      OneLoss(p, r, offered, hit, x, h);
    }
    hide Ids, SortedDesc, DistinctIds, TrueScores;
    OfferedIds(p, r, hit);
    assert Ids(best) <= all;
  }

  lemma OfferedIds(p: Problem, r: Work, hit: Hit)
    requires ListsOk(p, r) && hit.id !in r.visited
    ensures var best := PushedBest(r.best, hit, p.ef);
            && |best| == Min(p.ef, |r.best| + 1) && Ids(best) <= Ids(r.best) + {hit.id}
            && (|r.best| < p.ef ==> Ids(best) == Ids(r.best) + {hit.id})
            && |r.best| <= p.ef
  {
    hide Pushed, PushedBest;
    PushedBestFacts(r.best, hit, p.ef);
    OfferIds(p, r, hit);
  }

  lemma OneLoss(p: Problem, r: Work, offered: set<Id>, hit: Hit, x: Id, h: Hit)
    requires ListsOk(p, r) && hit.id !in r.visited && hit.id in p.g && hit.score == p.Score(hit.id)
    requires KeepsBest(p, offered, r.best) && hit.id !in offered
    requires var best := PushedBest(r.best, hit, p.ef);
             x in offered + {hit.id} && x !in Ids(best) && h in best
    ensures x in p.g && p.Score(x) <= h.score
  {
    hide Pushed, PushedBest;
    var best := PushedBest(r.best, hit, p.ef);
    if x == hit.id {
      PushedBestFacts(r.best, hit, p.ef);
      assert hit !in best;
    } else if x in Ids(r.best) {
      PushedBestFacts(r.best, hit, p.ef);
      var i := PositionOf(r.best, x);
      assert r.best[i] in r.best && r.best[i] !in best;
    } else {
      assert r.best[0] in r.best;
      EarlierLoss(p, r, hit, x, h);
    }
  }

  /** What was given up before is no better than anything in the list now. */
  lemma EarlierLoss(p: Problem, r: Work, hit: Hit, x: Id, h: Hit)
    requires ListsOk(p, r) && hit.id !in r.visited && |r.best| >= p.ef
    requires x in p.g && forall h :: h in r.best ==> p.Score(x) <= h.score
    requires h in PushedBest(r.best, hit, p.ef)
    ensures p.Score(x) <= h.score
  {
    hide Pushed, PushedBest;
    PushedBestFacts(r.best, hit, p.ef);
    var best := PushedBest(r.best, hit, p.ef);
    if h == hit && h !in r.best {
      if forall b :: b in r.best ==> b in best {
        MoreThanRoom(p, r, hit, best);
      }
      var b :| b in r.best && b !in best;
      assert b.score <= h.score;
    }
  }

  /** A full list cannot keep all its hits next to a new one. */
  lemma MoreThanRoom(p: Problem, r: Work, hit: Hit, best: seq<Hit>)
    requires ListsOk(p, r) && hit.id !in r.visited && |r.best| >= p.ef
    requires DistinctIds(best) && |best| <= p.ef && hit in best
    ensures exists b :: b in r.best && b !in best
  {
    if forall b :: b in r.best ==> b in best {
      assert Ids(r.best) + {hit.id} <= Ids(best);
      IdsCard(best);
      IdsCard(r.best);
      assert hit.id !in Ids(r.best);
      SubsetCard(Ids(r.best) + {hit.id}, Ids(best));
    }
  }

  lemma TakesOne(p: Problem, w: Work, neighbors: seq<Id>, n: nat, r: Work)
    requires ListsOk(p, w) && ListsOk(p, r) && n < |neighbors| && NoDup(neighbors) && TakenIn(p, w, neighbors, n, r)
    requires Admits(p, w, neighbors, n)
    ensures var hit := Hit(neighbors[n], p.Score(neighbors[n]));
            TakenIn(p, w, neighbors, n + 1, Offered(p, r, hit)) && ListsOk(p, Offered(p, r, hit))
  {
    var id := neighbors[n];
    var hit := Hit(id, p.Score(id));
    AdmittedStep(p, w, neighbors, n);
    ElemsStep(neighbors, n);
    NotYetOffered(p, w, neighbors, n, r);
    hide Admitted, Ids, ListsOk, PushedBest, Pushed, Elems, KeepsBest;
    var offered := Ids(w.best) + Admitted(p, w, neighbors, n);
    OfferedList(p, r, offered, hit);
    OfferKeepsLists(p, r, hit);
    OfferIds(p, r, hit);
    assert Ids(w.best) + Admitted(p, w, neighbors, n + 1) == offered + {id};
    assert r.visited + {id} == w.visited + Elems(neighbors[..n + 1]);
  }

  lemma NotYetOffered(p: Problem, w: Work, neighbors: seq<Id>, n: nat, r: Work)
    requires ListsOk(p, w) && n < |neighbors| && NoDup(neighbors) && TakenIn(p, w, neighbors, n, r)
    requires neighbors[n] !in w.visited
    ensures neighbors[n] !in r.visited && neighbors[n] !in Ids(w.best) + Admitted(p, w, neighbors, n)
  {
  }

  lemma OneNeighbor(p: Problem, w: Work, neighbors: seq<Id>, n: nat, r: Work)
    requires ListsOk(p, w) && ListsOk(p, r) && n < |neighbors| && NoDup(neighbors) && TakenIn(p, w, neighbors, n, r)
    ensures var r' := VisitOne(p, w.best[|w.best| - 1].score, r, neighbors[n]);
            TakenIn(p, w, neighbors, n + 1, r') && ListsOk(p, r')
  {
    hide ListsOk;
    SeesMore(p, w, neighbors[n]);
    if Admits(p, w, neighbors, n) {
      NotYetOffered(p, w, neighbors, n, r);
      TakesOne(p, w, neighbors, n, r);
    } else {
      PassesBy(p, w, neighbors, n, r);
      if neighbors[n] in w.visited {
        assert r.visited + {neighbors[n]} == r.visited;
      } else {
        NotYetOffered(p, w, neighbors, n, r);
      }
    }
  }

  lemma {:induction false} AllNeighbors(p: Problem, w: Work, neighbors: seq<Id>, n: nat)
    requires ListsOk(p, w) && n <= |neighbors| && NoDup(neighbors)
    ensures var r := VisitAll(p, w.best[|w.best| - 1].score, w, neighbors[..n]);
            TakenIn(p, w, neighbors, n, r) && ListsOk(p, r)
  {
    SeesMore(p, w, "");
    hide TakenIn, ListsOk, VisitAll;
    var worst := w.best[|w.best| - 1].score;
    VisitNone(p, worst, w, neighbors);
    if n == 0 {
      TakesNothing(p, w, neighbors);
    } else {
      AllNeighbors(p, w, neighbors, n - 1);
      VisitOneMore(p, worst, w, neighbors, n - 1);
      OneNeighbor(p, w, neighbors, n - 1, VisitAll(p, worst, w, neighbors[..n - 1]));
    }
  }

  // ---- the whole search ----

  /** What is waiting waits once, and was not expanded before. */
  ghost predicate WaitsOnce(p: Problem, w: Work, expanded: set<Id>) {
    && ListsOk(p, w) && DistinctIds(w.candidates)
    && expanded <= w.visited && expanded * Ids(w.candidates) == {}
  }

  lemma ExpandIsTurn(p: Problem, w: Work)
    requires ListsOk(p, w) && w.best != [] && !Done(p, w) && NeighborSets(p.g)
    ensures p.ef >= 1 && Turn(p, w, Expand(p, w)) && ListsOk(p, Expand(p, w))
  {
    hide TakenIn, SortedDesc, VisitAll, ListsOk;
    SeesMore(p, w, "");
    SortedLists(p, w);
    TakeKeepsLists(p, w);
    WholeTurn(p, w.(candidates := w.candidates[1..]), p.g[w.candidates[0].id].neighbors);
    ExpandVisits(p, w);
  }

  lemma ExpandVisits(p: Problem, w: Work)
    requires w.best != [] && w.candidates != [] && p.ef >= 1 && w.candidates[0].id in p.g
    ensures Expand(p, w) == VisitAll(p, w.best[|w.best| - 1].score, w.(candidates := w.candidates[1..]),
                                     p.g[w.candidates[0].id].neighbors)
  {
  }

  /** The loop over all the neighbours. */
  lemma WholeTurn(p: Problem, w: Work, neighbors: seq<Id>)
    requires ListsOk(p, w) && NoDup(neighbors)
    ensures w.best != []
    ensures var r := VisitAll(p, w.best[|w.best| - 1].score, w, neighbors);
            && TakenIn(p, w, neighbors, |neighbors|, r) && ListsOk(p, r)
            && (DistinctIds(w.candidates) ==> DistinctIds(r.candidates))
  {
    hide TakenIn, VisitAll, ListsOk, DistinctIds;
    SeesMore(p, w, "");
    assert neighbors[..|neighbors|] == neighbors;
    AllNeighbors(p, w, neighbors, |neighbors|);
    if DistinctIds(w.candidates) { NeighborsWaitOnce(p, w, neighbors, |neighbors|); }
  }

  lemma SortedLists(p: Problem, w: Work)
    requires ListsOk(p, w)
    ensures SortedDesc(w.candidates) && SortedDesc(w.best)
  {
  }

  lemma {:induction false} NeighborsWaitOnce(p: Problem, w: Work, neighbors: seq<Id>, n: nat)
    requires ListsOk(p, w) && n <= |neighbors| && NoDup(neighbors) && w.best != [] && DistinctIds(w.candidates)
    ensures DistinctIds(VisitAll(p, w.best[|w.best| - 1].score, w, neighbors[..n]).candidates)
  {
    hide TakenIn, VisitAll, ListsOk, Pushed, PushedBest;
    var worst := w.best[|w.best| - 1].score;
    VisitNone(p, worst, w, neighbors);
    if n > 0 {
      NeighborsWaitOnce(p, w, neighbors, n - 1);
      VisitOneMore(p, worst, w, neighbors, n - 1);
      AllNeighbors(p, w, neighbors, n - 1);
      OfferWaitsOnce(p, VisitAll(p, worst, w, neighbors[..n - 1]), neighbors[n - 1]);
    }
  }

  lemma OfferWaitsOnce(p: Problem, r: Work, id: Id)
    requires ListsOk(p, r) && DistinctIds(r.candidates)
    ensures id in p.g && id !in r.visited ==> DistinctIds(Offered(p, r, Hit(id, p.Score(id))).candidates)
  {
    hide Pushed;
    if id in p.g && id !in r.visited { PushedFacts(r.candidates, Hit(id, p.Score(id))); }
  }

  lemma ExpandWaitsOnce(p: Problem, w: Work, expanded: set<Id>)
    requires WaitsOnce(p, w, expanded) && w.best != [] && !Done(p, w) && NeighborSets(p.g)
    ensures p.ef >= 1 && w.candidates[0].id !in expanded
    ensures WaitsOnce(p, Expand(p, w), expanded + {w.candidates[0].id})
  {
    hide TakenIn, VisitAll, DistinctIds, Ids, ListsOk, Expand;
    SeesMore(p, w, "");
    FirstGoes(p, w, expanded);
    var id, rest := w.candidates[0].id, w.(candidates := w.candidates[1..]);
    WholeTurn(p, rest, p.g[id].neighbors);
    ExpandVisits(p, w);
    NewOnesWereNotExpanded(p, rest, p.g[id].neighbors, expanded + {id}, Expand(p, w));
  }

  /** The first candidate leaves the list and counts as expanded. */
  lemma FirstGoes(p: Problem, w: Work, expanded: set<Id>)
    requires WaitsOnce(p, w, expanded) && w.candidates != []
    ensures var id := w.candidates[0].id;
            && id in p.g && id !in expanded
            && WaitsOnce(p, w.(candidates := w.candidates[1..]), expanded + {id})
  {
    hide DistinctIds, Ids, ListsOk;
    TakeKeepsLists(p, w);
    FirstIsApart(w.candidates);
    var id, rest := w.candidates[0].id, Ids(w.candidates[1..]);
    assert id !in expanded * Ids(w.candidates);
    forall x | x in expanded + {id} ensures x !in rest { assert x !in expanded * Ids(w.candidates); }
  }

  lemma FirstIsApart(hits: seq<Hit>)
    requires DistinctIds(hits) && hits != []
    ensures DistinctIds(hits[1..]) && hits[0].id !in Ids(hits[1..]) && hits[0].id in Ids(hits)
    ensures Ids(hits[1..]) <= Ids(hits)
  {
    assert hits[0] in hits;
  }

  lemma NewOnesWereNotExpanded(p: Problem, w: Work, neighbors: seq<Id>, expanded: set<Id>, r: Work)
    requires w.best != [] && TakenIn(p, w, neighbors, |neighbors|, r)
    requires expanded <= w.visited && expanded * Ids(w.candidates) == {}
    ensures expanded <= r.visited && expanded * Ids(r.candidates) == {}
  {
  }

  lemma DoneIsFinished(p: Problem, w: Work)
    requires ListsOk(p, w) && w.best != [] && Done(p, w)
    ensures Finished(p, w)
  {
  }

  lemma {:induction false} TraverseIsRun(p: Problem, w: Work, expanded: set<Id>) returns (works: seq<Work>)
    requires WaitsOnce(p, w, expanded) && NeighborSets(p.g)
    ensures w.best != [] && p.ef >= 1
    ensures IsRun(p, w, works) && works[|works| - 1] == Traverse(p, w)
    ensures forall i :: 0 <= i < |works| - 1 ==> Chosen(works[i]).Some? && Chosen(works[i]).value !in expanded
    decreases |p.g| - |w.visited|, |w.candidates|
  {
    hide Turn, Finished, Expand, TakenIn, DistinctIds, ListsOk;
    SeesMore(p, w, "");
    if Done(p, w) {
      DoneIsFinished(p, w);
      works := [w];
    } else {
      ExpandIsTurn(p, w);
      ExpandWaitsOnce(p, w, expanded);
      var rest := TraverseIsRun(p, Expand(p, w), expanded + {w.candidates[0].id});
      works := [w] + rest;
      assert forall i :: 1 <= i < |works| ==> works[i] == rest[i - 1];
    }
  }

  /** However a search goes, it is a run: it expands the best candidate as long as that is worth it, takes in exactly
      the admitted neighbours, expands no node twice, and stops when nothing that waits is worth it. */
  lemma SearchIsRun(p: Problem, entry: Id)
    requires entry in p.g && p.ef >= 1 && NeighborSets(p.g)
    ensures Reaches(p, entry, Search(p, entry))
  {
    hide IsRun, Traverse;
    var works := TraverseIsRun(p, Seed(p, entry), {});
  }
}

/** When the stale score of the inner loop can cost a hit: the exact condition, and a graph for every other case. */
module NarrowSearch {
  import opened Common
  import opened NeighborGraph
  import opened BestFirstSearch
  import opened HnswIndex

  /** The hits returned are the best of everything visited. */
  ghost predicate FindsBest(p: Problem, entry: Id, k: int)
    requires entry in p.g && p.ef >= 1
  {
    var found := Search(p, entry);
    NoneBetter(p, found.best[..SliceCount(|found.best|, k)], found.visited)
  }

  // ---- a path, and at its end a fan that fills the list with poor hits before its best member comes ----

  function Name(i: nat): Id { seq(i + 1, _ => 'x') }

  function Names(m: nat): set<Id> { set i: nat | i < m :: Name(i) }

  /** The nodes 0..ef: a path of `n - 1` good ones, then the fan, of which only the last is not poor. */
  function TrapNode(n: nat, ef: nat, i: nat): Node
    requires 2 <= n <= ef
  {
    if i + 2 < n then Node([3.0], [Name(i + 1)])
    else if i + 2 == n then Node([3.0], Fan(n, ef - n + 2))
    else if i < ef then Node([1.0], [])
    else Node([2.0], [])
  }

  /** The first `m` members of the fan. */
  function Fan(n: nat, m: nat): seq<Id>
    requires n >= 2
  {
    seq(m, j requires 0 <= j < m => Name(n - 1 + j))
  }

  function Trap(n: nat, ef: nat): Graph
    requires 2 <= n <= ef
  {
    map id | id in Names(ef + 1) :: TrapNode(n, ef, |id| - 1)
  }

  function FirstCoordinate(q: Vector, v: Vector): real { if v == [] then 0.0 else v[0] }

  function TrapSearch(n: nat, ef: nat): Problem
    requires 2 <= n <= ef
  {
    Problem(Trap(n, ef), ef, FirstCoordinate, [])
  }

  function TrapScore(n: nat, ef: nat, i: nat): real
    requires 2 <= n <= ef
  {
    if i + 2 <= n then 3.0 else if i < ef then 1.0 else 2.0
  }

  lemma NamesFacts(m: nat, i: nat)
    ensures Name(i) in Names(m) <==> i < m
    ensures Names(m + 1) == Names(m) + {Name(m)}
  {
    if Name(i) in Names(m) {
      var j: nat :| j < m && Name(j) == Name(i);
      assert |Name(j)| == |Name(i)|;
    }
  }

  lemma {:induction false} NamesCount(m: nat)
    ensures |Names(m)| == m
  {
    if m > 0 {
      NamesCount(m - 1);
      NamesFacts(m - 1, m - 1);
    } else {
      assert Names(0) == {};
    }
  }

  lemma TrapAt(n: nat, ef: nat, i: nat)
    requires 2 <= n <= ef && i <= ef
    ensures Name(i) in Trap(n, ef) && Trap(n, ef)[Name(i)] == TrapNode(n, ef, i)
    ensures TrapSearch(n, ef).Score(Name(i)) == TrapScore(n, ef, i)
  {
    NamesFacts(ef + 1, i);
    assert |Name(i)| - 1 == i;
  }

  function TrapHit(n: nat, ef: nat, i: nat): Hit
    requires 2 <= n <= ef
  {
    Hit(Name(i), TrapScore(n, ef, i))
  }

  /** The first `m` nodes as hits: what the result list holds while nothing has been skipped. */
  function TrapHits(n: nat, ef: nat, m: nat): seq<Hit>
    requires 2 <= n <= ef
  {
    seq(m, i requires 0 <= i < m => TrapHit(n, ef, i))
  }

  /** Up to the last node of the fan every hit goes to the end of the list. */
  lemma NextHitComesLast(n: nat, ef: nat, m: nat)
    requires 2 <= n <= ef && m < ef
    ensures PushedBest(TrapHits(n, ef, m), TrapHit(n, ef, m), ef) == TrapHits(n, ef, m + 1)
  {
    var hits, hit := TrapHits(n, ef, m), TrapHit(n, ef, m);
    assert Place(hits, hit.score) == m;
    assert Splice(hits, m, hit) == hits + [hit];
    assert hits + [hit] == TrapHits(n, ef, m + 1);
  }

  /** Visiting the next node while there is room. */
  lemma VisitNext(n: nat, ef: nat, m: nat, w: Work)
    requires 2 <= n <= ef && m < ef && w.best == TrapHits(n, ef, m) && w.visited == Names(m)
    ensures var r := VisitOne(TrapSearch(n, ef), 3.0, w, Name(m));
            && r.best == TrapHits(n, ef, m + 1) && r.visited == Names(m + 1)
            && r.candidates == Pushed(w.candidates, TrapHit(n, ef, m))
  {
    hide Pushed, PushedBest, TrapHits, Names, Trap, Name;
    NamesFacts(m, m);
    TrapAt(n, ef, m);
    NextHitComesLast(n, ef, m);
    TrapHitsCount(n, ef, m);
  }

  lemma TrapHitsCount(n: nat, ef: nat, m: nat)
    requires 2 <= n <= ef
    ensures |TrapHits(n, ef, m)| == m
  {
  }

  /** The work lists after the first `t` nodes of the path were expanded. */
  function OnPath(n: nat, ef: nat, t: nat): Work
    requires 2 <= n <= ef
  {
    Work([TrapHit(n, ef, t)], TrapHits(n, ef, t + 1), Names(t + 1))
  }

  lemma PathStep(n: nat, ef: nat, t: nat)
    requires 2 <= n <= ef && t + 2 < n
    ensures !Done(TrapSearch(n, ef), OnPath(n, ef, t))
    ensures Expand(TrapSearch(n, ef), OnPath(n, ef, t)) == OnPath(n, ef, t + 1)
  {
    NotDoneOnPath(n, ef, t);
    TrapAt(n, ef, t);
    var p, w := TrapSearch(n, ef), OnPath(n, ef, t);
    var rest := w.(candidates := []);
    hide TrapHits, Names, Trap, PushedBest, VisitOne, Name;
    VisitNext(n, ef, t + 1, rest);
    assert w.candidates[1..] == [];
    OnlyOne(p, 3.0, rest, Name(t + 1));
    assert Pushed([], TrapHit(n, ef, t + 1)) == [TrapHit(n, ef, t + 1)];
    TrapHitsEnd(n, ef, t + 1);
  }

  lemma TrapHitsEnd(n: nat, ef: nat, m: nat)
    requires 2 <= n <= ef && m >= 1
    ensures |TrapHits(n, ef, m)| == m && TrapHits(n, ef, m)[m - 1] == TrapHit(n, ef, m - 1)
  {
  }

  lemma OnlyOne(p: Problem, worst: real, w: Work, id: Id)
    ensures VisitAll(p, worst, w, [id]) == VisitOne(p, worst, w, id)
  {
    assert [id][..0] == [];
    VisitOneMore(p, worst, w, [id], 0);
    assert [id][..1] == [id];
  }

  lemma NotDoneOnPath(n: nat, ef: nat, t: nat)
    requires 2 <= n <= ef && t + 2 <= n
    ensures !Done(TrapSearch(n, ef), OnPath(n, ef, t))
  {
    NamesCount(t + 1);
    NamesCount(ef + 1);
    assert Trap(n, ef).Keys == Names(ef + 1);
  }

  lemma {:induction false} PathIsWalked(n: nat, ef: nat, t: nat)
    requires 2 <= n <= ef && t + 2 <= n
    ensures Name(0) in Trap(n, ef)
    ensures Search(TrapSearch(n, ef), Name(0)) == Traverse(TrapSearch(n, ef), OnPath(n, ef, t))
  {
    TrapAt(n, ef, 0);
    if t == 0 {
      assert TrapHits(n, ef, 1) == [TrapHit(n, ef, 0)];
      assert Names(1) == {Name(0)};
    } else {
      hide TrapHits, Names, Trap, Traverse, Expand;
      PathIsWalked(n, ef, t - 1);
      PathStep(n, ef, t - 1);
      TraverseStep(TrapSearch(n, ef), OnPath(n, ef, t - 1));
    }
  }

  lemma FanStep(p: Problem, worst: real, w: Work, n: nat, m: nat)
    requires n >= 2
    ensures VisitAll(p, worst, w, Fan(n, m + 1)) ==
        VisitOne(p, worst, VisitAll(p, worst, w, Fan(n, m)), Name(n - 1 + m))
  {
    hide VisitAll, VisitOne, Name;
    assert Fan(n, m + 1)[..m] == Fan(n, m);
    assert Fan(n, m + 1)[..m + 1] == Fan(n, m + 1);
    VisitOneMore(p, worst, w, Fan(n, m + 1), m);
  }

  /** The fan fills the list; its last member comes too late. */
  lemma {:induction false} FanFills(n: nat, ef: nat, w: Work, m: nat)
    requires 2 <= n <= ef && m <= ef - n + 1
    requires w.best == TrapHits(n, ef, n - 1) && w.visited == Names(n - 1)
    ensures var r := VisitAll(TrapSearch(n, ef), 3.0, w, Fan(n, m));
            r.best == TrapHits(n, ef, n - 1 + m) && r.visited == Names(n - 1 + m)
  {
    hide TrapHits, Names, Trap, VisitOne, Name, Fan;
    if m == 0 {
      FanStarts(TrapSearch(n, ef), 3.0, w, n);
    } else {
      FanFills(n, ef, w, m - 1);
      FanStep(TrapSearch(n, ef), 3.0, w, n, m - 1);
      VisitNext(n, ef, n - 2 + m, VisitAll(TrapSearch(n, ef), 3.0, w, Fan(n, m - 1)));
    }
  }

  lemma FanStarts(p: Problem, worst: real, w: Work, n: nat)
    requires n >= 2
    ensures VisitAll(p, worst, w, Fan(n, 0)) == w
  {
  }

  lemma FanEnds(n: nat, ef: nat, w: Work)
    requires 2 <= n <= ef
    requires w.best == TrapHits(n, ef, n - 1) && w.visited == Names(n - 1)
    ensures var r := VisitAll(TrapSearch(n, ef), 3.0, w, Fan(n, ef - n + 2));
            r.best == TrapHits(n, ef, ef) && r.visited == Names(ef + 1)
  {
    hide TrapHits, Names, Trap, Name, VisitAll, Fan;
    FanFills(n, ef, w, ef - n + 1);
    FanStep(TrapSearch(n, ef), 3.0, w, n, ef - n + 1);
    NamesFacts(ef, ef);
    TrapAt(n, ef, ef);
    TrapHitsCount(n, ef, ef);
  }

  /** Everything is visited, and the list holds every node but the last. */
  lemma TrapResult(n: nat, ef: nat)
    requires 2 <= n <= ef
    ensures Name(0) in Trap(n, ef)
    ensures var found := Search(TrapSearch(n, ef), Name(0));
            found.best == TrapHits(n, ef, ef) && found.visited == Names(ef + 1)
  {
    hide TrapHits, Names, Trap, Traverse, VisitAll;
    var p, w := TrapSearch(n, ef), OnPath(n, ef, n - 2);
    PathIsWalked(n, ef, n - 2);
    TrapHitsEnd(n, ef, n - 1);
    NotDoneOnPath(n, ef, n - 2);
    TraverseStep(p, w);
    TrapAt(n, ef, n - 2);
    FanEnds(n, ef, w.(candidates := []));
    assert w.candidates[1..] == [];
    TraverseStep(p, Expand(p, w));
    NamesCount(ef + 1);
    TrapSize(n, ef);
  }

  lemma TrapSize(n: nat, ef: nat)
    requires 2 <= n <= ef
    ensures |Trap(n, ef)| == ef + 1
  {
    NamesCount(ef + 1);
    assert Trap(n, ef).Keys == Names(ef + 1);
  }

  lemma TrapIsMissed(n: nat, ef: nat, k: int)
    requires 2 <= n <= ef && SliceCount(ef, k) == n
    ensures Name(0) in Trap(n, ef) && !FindsBest(TrapSearch(n, ef), Name(0), k)
  {
    TrapResult(n, ef);
    var p, best := TrapSearch(n, ef), TrapHits(n, ef, ef);
    TrapAt(n, ef, ef);
    NamesFacts(ef + 1, ef);
    var result := best[..n];
    assert result[n - 1] == TrapHit(n, ef, n - 1);
    forall h | h in result ensures |h.id| <= n {
      var i :| 0 <= i < n && result[i] == h;
    }
    assert |Name(ef)| == ef + 1;
    assert TrapHit(n, ef, n - 1) in result;
  }

  lemma TrapIsOk(n: nat, ef: nat, limit: nat)
    requires 2 <= n <= ef && n + limit > ef + 1 && limit >= 1
    ensures GraphOk(Trap(n, ef), limit)
  {
    forall a | a in Trap(n, ef) ensures NodeOk(limit, a, Trap(n, ef)[a])
                                ensures forall b :: b in Trap(n, ef)[a].neighbors ==> b in Trap(n, ef)
    {
      var i: nat :| i < ef + 1 && Name(i) == a;
      TrapAt(n, ef, i);
      var neighbors := TrapNode(n, ef, i).neighbors;
      forall j | 0 <= j < |neighbors| ensures neighbors[j] == Name(i + 1 + j) && neighbors[j] in Trap(n, ef) {
        TrapAt(n, ef, i + 1 + j);
      }
      assert forall j :: 0 <= j < |neighbors| ==> |neighbors[j]| == i + 2 + j && |a| == i + 1;
    }
  }

  /** In every well-formed index with at most `limit` links per node the hits are the best of everything visited,
      exactly when the result list is ample. */
  lemma AmpleIsExact(ef: nat, k: int, limit: nat)
    requires ef >= 1 && k <= ef && limit >= 1
    ensures Ample(ef, k, limit) <==>
            forall p: Problem, entry: Id :: p.ef == ef && entry in p.g && GraphOk(p.g, limit) ==> FindsBest(p, entry, k)
  {
    if Ample(ef, k, limit) {
      forall p: Problem, entry: Id | p.ef == ef && entry in p.g && GraphOk(p.g, limit) ensures FindsBest(p, entry, k) {
        SearchAnswers(p, entry, k);
        var found := Search(p, entry);
        AmpleAnswer(p, entry, k, found.best[..SliceCount(|found.best|, k)], limit);
      }
    } else {
      var n := SliceCount(ef, k);
      TrapIsOk(n, ef, limit);
      TrapIsMissed(n, ef, k);
    }
  }
}

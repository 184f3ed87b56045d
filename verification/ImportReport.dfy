/** The report of an import, number by number and issue by issue. */
module ImportReport {
  import opened Common
  import opened JsonText
  import opened ImportJson

  function Hash(candidates: seq<Json>, i: nat, number: Reader): string
    requires i < |candidates| && Readable(candidates, i, number)
  {
    BlockAt(candidates, i, number).hash
  }

  /** An earlier candidate had the same hash. */
  ghost predicate SeenBefore(candidates: seq<Json>, i: nat, number: Reader) {
    && i < |candidates| && Readable(candidates, i, number)
    && Earlier(candidates, i, Hash(candidates, i, number), number)
  }

  /** The issue a candidate is due: its reason if it cannot be read, or that its hash has been seen. */
  ghost predicate CandidateIssue(candidates: seq<Json>, i: nat, number: Reader, issue: Issue) {
    && i < |candidates|
    && (match NormalizeCandidate(candidates[i], i, number)
        case Err(reason) => issue == Issue(CandidateRef(i), reason)
        case Ok(block) => SeenBefore(candidates, i, number) && issue == Issue(HashRef(block.hash), DuplicateHash))
  }

  /** The issue a kept block is due for a link that is not the hash before it. */
  predicate LinkIssue(kept: seq<Block>, i: nat, issue: Issue) {
    && i < |kept| && kept[i].prevHash != (if i == 0 then ZERO_HASH else kept[i - 1].hash)
    && issue == Issue(HashRef(kept[i].hash),
                      if i == 0 && kept[i].prevHash == "" then MissingGenesisPrevHash else PrevHashMismatch)
  }

  lemma LastIssueIs(candidates: seq<Json>, n: nat, number: Reader)
    requires n < |candidates|
    ensures var all := candidates[..n + 1];
            && (forall issue :: issue in LastIssue(all, number) <==> CandidateIssue(candidates, n, number, issue))
            && |LastIssue(all, number)| <= 1
  {
    hide NormalizeCandidate;
    var all := candidates[..n + 1];
    assert all[..n] == candidates[..n] && all[n] == candidates[n];
    KeptUpTo(candidates, n, number);
  }

  /** The first issues are exactly those the candidates are due. */
  lemma {:induction false} FirstIssuesAre(candidates: seq<Json>, n: nat, number: Reader)
    requires n <= |candidates|
    ensures forall issue :: issue in FirstIssues(candidates[..n], number) <==>
              exists i :: 0 <= i < n && CandidateIssue(candidates, i, number, issue)
  {
    hide CandidateIssue, LastIssue;
    if n > 0 {
      FirstIssuesAre(candidates, n - 1, number);
      assert candidates[..n][..n - 1] == candidates[..n - 1];
      LastIssueIs(candidates, n - 1, number);
    }
  }

  lemma {:induction false} LinkIssuesAre(blocks: seq<Block>, n: nat)
    requires n <= |blocks|
    ensures forall issue :: issue in LinkIssues(blocks[..n]) <==> exists i :: 0 <= i < n && LinkIssue(blocks, i, issue)
    ensures |LinkIssues(blocks[..n])| == |LinkRewrites(blocks[..n])|
  {
    hide *;
    if n > 0 {
      LinkIssuesAre(blocks, n - 1);
      LastLinkIssue(blocks, n);
    } else {
      NoLinkIssues();
      assert blocks[..0] == [];
    }
  }

  lemma NoLinkIssues()
    ensures LinkIssues([]) == [] && LinkRewrites([]) == {}
  {
  }

  lemma LastLinkIssue(blocks: seq<Block>, n: nat)
    requires 0 < n <= |blocks|
    ensures var front, all := blocks[..n - 1], blocks[..n];
            && |LinkIssues(all)| - |LinkIssues(front)| == |LinkRewrites(all)| - |LinkRewrites(front)|
            && forall issue :: issue in LinkIssues(all) <==>
                 issue in LinkIssues(front) || LinkIssue(blocks, n - 1, issue)
  {
    hide LinkRewrites;
    var front := blocks[..n - 1];
    assert blocks[..n][..n - 1] == front && blocks[..n] == front + [blocks[n - 1]];
    LinkRewritesStep(front, blocks[n - 1]);
  }

  function NumbersOff(kept: seq<Block>, n: nat): set<nat>
    requires n <= |kept|
  {
    set i: nat | i < n && kept[i].index != Finite(i as real)
  }

  function LinksOff(kept: seq<Block>, n: nat): set<nat>
    requires n <= |kept|
  {
    set i: nat | i < n && kept[i].prevHash != (if i == 0 then ZERO_HASH else kept[i - 1].hash)
  }

  /** A last block without a usable index is left out. */
  predicate LeavesOut(kept: seq<Block>) { kept != [] && kept[|kept| - 1].index == Infinite }

  /** Issue by issue: what a report has to say about the candidates, the links and the last block, and nothing more. */
  ghost predicate IssueIsDue(candidates: seq<Json>, kept: seq<Block>, n: nat, number: Reader, issue: Issue)
    requires n <= |kept|
  {
    || (exists i :: 0 <= i < |candidates| && CandidateIssue(candidates, i, number, issue))
    || (exists i :: 0 <= i < n && LinkIssue(kept, i, issue))
    || (LeavesOut(kept) && issue == Issue(HashRef(kept[|kept| - 1].hash), InvalidIndex))
  }

  lemma UsableCounts(kept: seq<Block>)
    ensures var usable := Usable(kept);
            && usable == kept[..|usable|] && |usable| == |kept| - (if LeavesOut(kept) then 1 else 0)
            && IndexRewrites(usable) == NumbersOff(kept, |usable|) && LinkRewrites(usable) == LinksOff(kept, |usable|)
            && forall i, issue :: 0 <= i < |usable| ==> (LinkIssue(usable, i, issue) <==> LinkIssue(kept, i, issue))
  {
  }

  lemma SecondIssuesAre(kept: seq<Block>)
    ensures var n := |Usable(kept)|;
            && |SecondIssues(kept)| == |LinksOff(kept, n)| + (if LeavesOut(kept) then 1 else 0)
            && forall issue :: issue in SecondIssues(kept) <==>
                 || (exists i :: 0 <= i < n && LinkIssue(kept, i, issue))
                 || (LeavesOut(kept) && issue == Issue(HashRef(kept[|kept| - 1].hash), InvalidIndex))
  {
    UsableCounts(kept);
    var usable := Usable(kept);
    LinkIssuesAre(usable, |usable|);
    assert usable[..|usable|] == usable;
    hide LinkIssue, LinkIssues, LinkRewrites, LinksOff;
  }

  /** The blocks are the kept ones relinked in their places, and the counts count just that. */
  ghost predicate CountsRight(r: ImportJsonResult, shape: Shape, candidates: seq<Json>, kept: seq<Block>) {
    var n := |r.blocks|;
    && n == |kept| - (if LeavesOut(kept) then 1 else 0)
    && (forall i :: 0 <= i < n ==>
          r.blocks[i] == kept[i].(index := Finite(i as real),
                                  prevHash := if i == 0 then ZERO_HASH else kept[i - 1].hash))
    && r.shape == shape && r.totalCandidates == |candidates| && r.reconciled == |kept|
    && r.imported == n && r.skipped == |candidates| - n
    && r.indexRewritten == |NumbersOff(kept, n)| && r.prevHashRewritten == |LinksOff(kept, n)|
  }

  /** Exactly the issues that are due are reported, and the import is valid if they are all about duplicates. */
  ghost predicate IssuesRight(r: ImportJsonResult, candidates: seq<Json>, kept: seq<Block>, number: Reader) {
    var n := |r.blocks|;
    && n <= |kept|
    && |r.issues| == |candidates| - |kept| + |LinksOff(kept, n)| + (if LeavesOut(kept) then 1 else 0)
    && (forall issue :: issue in r.issues <==> IssueIsDue(candidates, kept, n, number, issue))
    && (r.valid <==> forall i :: 0 <= i < |r.issues| ==> r.issues[i].reason == DuplicateHash)
  }

  /** The whole report of an import. */
  lemma ReportIsExact(payload: Json, number: Reader)
    requires Import(payload, number).Ok?
    ensures var r, (shape, candidates) := Import(payload, number).value, ResolvePayloadShape(payload).value;
            var kept := Kept(candidates, number);
            CountsRight(r, shape, candidates, kept) && IssuesRight(r, candidates, kept, number)
  {
    hide *;
    ImportIsReport(payload, number);
    var (shape, candidates) := ResolvePayloadShape(payload).value;
    ReportCounts(shape, candidates, Kept(candidates, number),
                 FirstIssues(candidates, number) + SecondIssues(Kept(candidates, number)));
    ReportIssues(shape, candidates, number);
  }

  lemma ImportIsReport(payload: Json, number: Reader)
    requires Import(payload, number).Ok?
    ensures ResolvePayloadShape(payload).Some?
    ensures var (shape, candidates) := ResolvePayloadShape(payload).value;
            Import(payload, number).value == Report(shape, candidates, Kept(candidates, number),
                                                    FirstIssues(candidates, number)
                                                    + SecondIssues(Kept(candidates, number)))
  {
  }

  lemma ReportCounts(shape: Shape, candidates: seq<Json>, kept: seq<Block>, issues: seq<Issue>)
    ensures CountsRight(Report(shape, candidates, kept, issues), shape, candidates, kept)
  {
    hide LinksOff, NumbersOff, LinkRewrites, IndexRewrites;
    UsableCounts(kept);
  }

  lemma ReportIssues(shape: Shape, candidates: seq<Json>, number: Reader)
    ensures var kept := Kept(candidates, number);
            IssuesRight(Report(shape, candidates, kept, FirstIssues(candidates, number) + SecondIssues(kept)),
                        candidates, kept, number)
  {
    hide Kept, FirstIssues, SecondIssues, IssueIsDue, LinksOff, LinkRewrites, IndexRewrites, LeavesOut, Usable;
    UsableCounts(Kept(candidates, number));
    IssuesAreDue(candidates, number);
  }

  lemma IssuesAreDue(candidates: seq<Json>, number: Reader)
    ensures var kept := Kept(candidates, number);
            var issues, n := FirstIssues(candidates, number) + SecondIssues(kept), |Usable(kept)|;
            && n <= |kept|
            && |issues| == |candidates| - |kept| + |LinksOff(kept, n)| + (if LeavesOut(kept) then 1 else 0)
            && forall issue :: issue in issues <==> IssueIsDue(candidates, kept, n, number, issue)
  {
    hide Kept, FirstIssues, SecondIssues, CandidateIssue, LinkIssue, LinksOff, LeavesOut, Usable;
    var kept := Kept(candidates, number);
    EveryCandidateCounts(candidates, number);
    FirstIssuesAre(candidates, |candidates|, number);
    assert candidates[..|candidates|] == candidates;
    UsableCounts(kept);
    SecondIssuesAre(kept);
  }
}

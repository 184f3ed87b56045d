/** Two validated chains that end in the same hash tell the same story, or they exhibit a broken hash. */
module TamperEvidence {
  import opened Common
  import opened ChainBlocks
  import opened SoulValidation

  datatype Evidence =
    | Agree
    | Collision(p: Payload, q: Payload)
    | ZeroPreimage(p: Payload)

  /** `p` is what some block says about itself, leaving out its hash and signature. */
  ghost predicate Mentions(blocks: seq<Block>, p: Payload) {
    exists i :: 0 <= i < |blocks| && Says(blocks[i], p)
  }

  predicate Says(b: Block, p: Payload) {
    && b.index == p.index && b.timestamp == p.timestamp && b.chain == p.chain && b.data == p.data
    && b.prevHash == p.prevHash
  }

  /** Two blocks that can differ in their signatures only. */
  predicate SameBlock(x: Block, y: Block) {
    && x.index == y.index && x.timestamp == y.timestamp && x.chain == y.chain && x.data == y.data
    && x.prevHash == y.prevHash && x.hash == y.hash
  }

  /** Position by position the same index, time, chain, data, link and hash. */
  ghost predicate SameStory(a: seq<Block>, b: seq<Block>) {
    |a| == |b| && forall i :: 0 <= i < |a| ==> SameBlock(a[i], b[i])
  }

  ghost predicate Holds(k: Kernel, a: seq<Block>, b: seq<Block>, e: Evidence) {
    match e
    case Agree => SameStory(a, b)
    case Collision(p, q) => p != q && k.digest(p) == k.digest(q) && Mentions(a, p) && Mentions(b, q)
    case ZeroPreimage(p) => k.digest(p) == ZERO_HASH && (Mentions(a, p) || Mentions(b, p))
  }

  lemma {:induction false} SameTipSameChain(k: Kernel, a: seq<Block>, b: seq<Block>) returns (e: Evidence)
    requires ValidChain(k, a) && ValidChain(k, b)
    requires a != [] && b != [] && a[|a| - 1].hash == b[|b| - 1].hash
    ensures Holds(k, a, b, e)
    decreases |a|
  {
    hide ValidChain, SameStory, Mentions;
    var m, n := |a| - 1, |b| - 1;
    ValidLink(k, a, m);
    ValidLink(k, b, n);
    var p, q := a[m].Covered(), b[n].Covered();
    MentionsAt(a, m);
    MentionsAt(b, n);
    if p != q {
      return Collision(p, q);
    }
    if m == 0 && n == 0 {
      OneBlockStory(a, b);
      return Agree;
    }
    if m == 0 || n == 0 {
      // the longer chain goes on below a block whose prev_hash is the zero hash
      if m == 0 {
        ValidLink(k, b, n - 1);
        MentionsAt(b, n - 1);
        return ZeroPreimage(b[n - 1].Covered());
      }
      ValidLink(k, a, m - 1);
      MentionsAt(a, m - 1);
      return ZeroPreimage(a[m - 1].Covered());
    }
    ValidChainPrefix(k, a, m);
    ValidChainPrefix(k, b, n);
    assert a[m].prevHash == b[n].prevHash;
    e := SameTipSameChain(k, a[..m], b[..n]);
    LiftEvidence(k, a, b, e);
  }

  lemma MentionsAt(blocks: seq<Block>, i: nat)
    requires i < |blocks|
    ensures Mentions(blocks, blocks[i].Covered())
  {
    assert Says(blocks[i], blocks[i].Covered());
  }

  lemma OneBlockStory(a: seq<Block>, b: seq<Block>)
    requires |a| == |b| == 1 && SameBlock(a[0], b[0])
    ensures SameStory(a, b)
  {
  }

  lemma LiftEvidence(k: Kernel, a: seq<Block>, b: seq<Block>, e: Evidence)
    requires a != [] && b != []
    requires Holds(k, a[..|a| - 1], b[..|b| - 1], e)
    requires SameBlock(a[|a| - 1], b[|b| - 1])
    ensures Holds(k, a, b, e)
  {
    forall p: Payload | Mentions(a[..|a| - 1], p) ensures Mentions(a, p) {
      var i :| 0 <= i < |a| - 1 && Says(a[..|a| - 1][i], p);
      assert Says(a[i], p);
    }
    forall p: Payload | Mentions(b[..|b| - 1], p) ensures Mentions(b, p) {
      var i :| 0 <= i < |b| - 1 && Says(b[..|b| - 1][i], p);
      assert Says(b[i], p);
    }
    if e.Agree? {
      forall i | 0 <= i < |a| ensures SameBlock(a[i], b[i]) {
        if i < |a| - 1 { assert SameBlock(a[..|a| - 1][i], b[..|b| - 1][i]); }
      }
    }
  }
}

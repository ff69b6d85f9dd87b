/**
 Locators: how two nodes on different chains find where to resume a sync
 (src/storage/chain.rs, generate_locator and find_locator_match).
 */
module Locator {
  import opened Wrappers
  import opened ChainModel
  import opened ForkChoice
  import opened ForkTips

  /** Some listed canonical height is at or below `f` and at most twice as far from the tip as `f` is. */
  ghost predicate Covers(heights: seq<Option<nat>>, f: nat, top: nat) {
    exists i :: 0 <= i < |heights| && heights[i].Some? && heights[i].value <= f && top - heights[i].value <= 2 * (top - f)
  }

  /** `locator` lists canonical hashes downwards, with branch ends in between (their height is None). */
  ghost predicate IsLocator(c: Chain, locator: seq<Hash>, heights: seq<Option<nat>>) {
    && |locator| == |heights|
    && (forall i | 0 <= i < |locator| ::
          match heights[i]
          case Some(k) => k in c.index && locator[i] == c.index[k]
          case None => locator[i] in Leaves(c))
    && (forall i, j | 0 <= i < j < |locator| :: heights[i].Some? && heights[j].Some? ==> heights[i].value >= heights[j].value)
  }

  lemma CoversMore(heights: seq<Option<nat>>, h: Option<nat>, f: nat, top: nat)
    requires Covers(heights, f, top)
    ensures Covers(heights + [h], f, top)
  {
    var i :| 0 <= i < |heights| && heights[i].Some? && heights[i].value <= f && top - heights[i].value <= 2 * (top - f);
    assert (heights + [h])[i] == heights[i];
  }

  lemma CoversLast(heights: seq<Option<nat>>, k: nat, f: nat, top: nat)
    requires k <= f && top - k <= 2 * (top - f)
    ensures Covers(heights + [Some(k)], f, top)
  {
    assert (heights + [Some(k)])[|heights|] == Some(k);
  }

  /** The two canonical chains have the same block at `k`. */
  ghost predicate Agree(c: Chain, d: Chain, k: nat) {
    k in c.index && k in d.index && c.index[k] == d.index[k]
  }

  /** No two stores hold different blocks under one hash. */
  ghost predicate Consistent(m: Blocks, n: Blocks) {
    forall h <- m :: h in n ==> m[h] == n[h]
  }

  lemma {:induction false} SameAncestry(m: Blocks, n: Blocks, h: Hash)
    requires Linked(m) && Linked(n) && Consistent(m, n) && Complete(m, h) && Complete(n, h)
    ensures IndexOf(m, h) == IndexOf(n, h)
    decreases Rank(m, h)
  {
    assert WeightAt(m, m[h].prev).Some? && WeightAt(n, n[h].prev).Some?;
    if m[h].prev != ZERO {
      SameAncestry(m, n, m[h].prev);
    }
  }

  /** Chains that agree at one height agree at every lower one. */
  lemma AgreeBelow(c: Chain, d: Chain, f: nat, k: nat)
    requires Canonical(c) && Canonical(d) && RootsAtZero(c.blocks) && RootsAtZero(d.blocks)
    requires Consistent(c.blocks, d.blocks) && Agree(c, d, f) && k <= f
    ensures Agree(c, d, k)
  {
    var m, n, h := c.blocks, d.blocks, c.index[f];
    IndexPrefix(m, c.tip.value, f);
    IndexPrefix(n, d.tip.value, f);
    SameAncestry(m, n, h);
    IndexDomain(m, c.tip.value);
    BaseIsLow(m, c.tip.value);
    assert k in UpTo(c.index, f) && UpTo(c.index, f) == UpTo(d.index, f);
    assert UpTo(c.index, f)[k] == UpTo(d.index, f)[k];
  }

  /** A branch end of one node that is canonical on the other lies above everything they share. */
  lemma LeafIsAbove(c: Chain, d: Chain, f: nat, h: Hash)
    requires Canonical(c) && Canonical(d) && RootsAtZero(c.blocks) && RootsAtZero(d.blocks)
    requires Consistent(c.blocks, d.blocks) && Agree(c, d, f)
    requires h in Leaves(c) && OnChain(d, h)
    ensures d.blocks[h].height > f
  {
    if d.blocks[h].height <= f {
      AgreeBelow(c, d, f, d.blocks[h].height);
    }
  }

  /** `r` is the height of the first locator entry that is canonical here. */
  ghost predicate IsMatch(d: Chain, locator: seq<Hash>, r: Option<nat>) {
    match r
    case None => forall i | 0 <= i < |locator| :: !OnChain(d, locator[i])
    case Some(k) =>
      exists i :: && 0 <= i < |locator| && OnChain(d, locator[i]) && d.blocks[locator[i]].height == k
                  && forall j | 0 <= j < i :: !OnChain(d, locator[j])
  }

  /**
   For a peer `c` asking node `d`, both on chains from one genesis, the match
   exists, backs off at most twice as far as the deepest agreement, and the
   blocks `d` streams from there connect to a block `c` already holds.
   */
  lemma ResumePoint(c: Chain, d: Chain, locator: seq<Hash>, heights: seq<Option<nat>>, r: Option<nat>, f: nat)
    requires Canonical(c) && Canonical(d) && RootsAtZero(c.blocks) && RootsAtZero(d.blocks)
    requires Consistent(c.blocks, d.blocks) && c.tip.Some? && d.tip.Some? && Agree(c, d, f)
    requires IsLocator(c, locator, heights) && Covers(heights, f, c.blocks[c.tip.value].height)
    requires IsMatch(d, locator, r)
    ensures r.Some? && r.value in d.index && d.index[r.value] in c.blocks
    ensures c.blocks[c.tip.value].height - r.value <= 2 * (c.blocks[c.tip.value].height - f) || r.value > f
    ensures r.value + 1 in d.index ==>
              d.index[r.value + 1] in d.blocks && d.blocks[d.index[r.value + 1]].prev == d.index[r.value]
  {
    var i := SomeEntryMatches(c, d, locator, heights, f);
    var k :| && 0 <= k < |locator| && OnChain(d, locator[k]) && d.blocks[locator[k]].height == r.value
             && forall j | 0 <= j < k :: !OnChain(d, locator[j]);
    assert k <= i;
    MatchIsHeld(c, d, locator, heights, f, k);
    if r.value + 1 in d.index {
      NextLinks(d, r.value);
    }
  }

  /** The entry that covers an agreed height is canonical on the other node too. */
  lemma SomeEntryMatches(c: Chain, d: Chain, locator: seq<Hash>, heights: seq<Option<nat>>, f: nat) returns (i: nat)
    requires Canonical(c) && Canonical(d) && RootsAtZero(c.blocks) && RootsAtZero(d.blocks)
    requires Consistent(c.blocks, d.blocks) && c.tip.Some? && d.tip.Some? && Agree(c, d, f)
    requires IsLocator(c, locator, heights) && Covers(heights, f, c.blocks[c.tip.value].height)
    ensures i < |locator| && OnChain(d, locator[i]) && heights[i].Some? && heights[i].value <= f
    ensures c.blocks[c.tip.value].height - heights[i].value <= 2 * (c.blocks[c.tip.value].height - f)
  {
    var top := c.blocks[c.tip.value].height;
    i :| 0 <= i < |heights| && heights[i].Some? && heights[i].value <= f && top - heights[i].value <= 2 * (top - f);
    AgreeBelow(c, d, f, heights[i].value);
    IndexPrefix(d.blocks, d.tip.value, heights[i].value);
  }

  /** Every entry that matches is a block the asking node holds, at the height it was listed for or above the agreement. */
  lemma MatchIsHeld(c: Chain, d: Chain, locator: seq<Hash>, heights: seq<Option<nat>>, f: nat, k: nat)
    requires Canonical(c) && Canonical(d) && RootsAtZero(c.blocks) && RootsAtZero(d.blocks)
    requires Consistent(c.blocks, d.blocks) && c.tip.Some? && Agree(c, d, f)
    requires IsLocator(c, locator, heights) && k < |locator| && OnChain(d, locator[k])
    ensures locator[k] in c.blocks && locator[k] in d.blocks
    ensures d.blocks[locator[k]].height > f || (heights[k].Some? && heights[k].value == d.blocks[locator[k]].height)
  {
    if heights[k].None? {
      LeafIsAbove(c, d, f, locator[k]);
    } else {
      IndexPrefix(c.blocks, c.tip.value, heights[k].value);
    }
  }

  /** The layout: the three highest blocks, then the branch ends, then canonical hashes only. */
  ghost predicate Laid(c: Chain, locator: seq<Hash>, heights: seq<Option<nat>>, tips: seq<Hash>) {
    && IsLocator(c, locator, heights) && c.tip.Some? && c.tip.value in c.blocks
    && var top := c.blocks[c.tip.value].height;
       var n := Highest(top);
    && |locator| >= n + |tips|
    && (forall i | 0 <= i < n :: heights[i] == Some(top - i))
    && (forall i | 0 <= i < |tips| :: locator[n + i] == tips[i] && heights[n + i] == None)
    && (forall i | n + |tips| <= i < |locator| :: heights[i].Some?)
  }

  function Highest(top: nat): nat {
    if top >= 2 then 3 else top + 1
  }

  /** The other node has one of our three highest blocks on its chain. */
  ghost predicate SharesTop(c: Chain, d: Chain) {
    c.tip.Some? && c.tip.value in c.blocks && exists k <- c.index :: k + 2 >= c.blocks[c.tip.value].height && Agree(c, d, k)
  }

  lemma AgreeIsOnChain(c: Chain, d: Chain, k: nat)
    requires Canonical(c) && Canonical(d) && Consistent(c.blocks, d.blocks) && k in c.index
    ensures c.index[k] in c.blocks && c.blocks[c.index[k]].height == k
    ensures OnChain(d, c.index[k]) <==> Agree(c, d, k)
  {
    IndexPrefix(c.blocks, c.tip.value, k);
    if k in d.index {
      IndexPrefix(d.blocks, d.tip.value, k);
    }
  }

  /** When no high block is shared, the first match is a branch end, the highest of those the other node has. */
  lemma MatchIsForkTip(c: Chain, d: Chain, locator: seq<Hash>, heights: seq<Option<nat>>, tips: seq<Hash>, k: nat, t: nat)
    requires Canonical(c) && Canonical(d) && Consistent(c.blocks, d.blocks)
    requires Laid(c, locator, heights, tips) && IsForkTips(c, tips) && !SharesTop(c, d)
    requires k < |locator| && OnChain(d, locator[k]) && (forall j | 0 <= j < k :: !OnChain(d, locator[j]))
    requires t < |tips| && OnChain(d, tips[t])
    ensures d.blocks[locator[k]].height >= d.blocks[tips[t]].height
  {
    var top := c.blocks[c.tip.value].height;
    var n := Highest(top);
    assert locator[n + t] == tips[t];
    assert k <= n + t;
    if k < n {
      assert heights[k] == Some(top - k);
      AgreeIsOnChain(c, d, top - k);
      assert false;
    }
    assert locator[k] == tips[k - n];
    assert k - n == t || Before(c.blocks, tips[k - n], tips[t]);
  }

  /** When a high block is shared, the first match is one of the highest blocks, below every branch end the other node has. */
  lemma MatchIsHigh(c: Chain, d: Chain, locator: seq<Hash>, heights: seq<Option<nat>>, tips: seq<Hash>, k: nat, t: nat)
    requires Canonical(c) && Canonical(d) && RootsAtZero(c.blocks) && RootsAtZero(d.blocks) && Consistent(c.blocks, d.blocks)
    requires Laid(c, locator, heights, tips) && IsForkTips(c, tips) && SharesTop(c, d)
    requires k < |locator| && OnChain(d, locator[k]) && (forall j | 0 <= j < k :: !OnChain(d, locator[j]))
    requires t < |tips| && OnChain(d, tips[t])
    ensures d.blocks[locator[k]].height < d.blocks[tips[t]].height
  {
    var j := SharedTopMatches(c, d, locator, heights, tips);
    assert k <= j;
    HighEntryIsBelow(c, d, locator, heights, tips, k, tips[t]);
  }

  lemma SharedTopMatches(c: Chain, d: Chain, locator: seq<Hash>, heights: seq<Option<nat>>, tips: seq<Hash>) returns (j: nat)
    requires Canonical(c) && Canonical(d) && Consistent(c.blocks, d.blocks)
    requires Laid(c, locator, heights, tips) && SharesTop(c, d)
    ensures j < Highest(c.blocks[c.tip.value].height) && OnChain(d, locator[j])
  {
    var top := c.blocks[c.tip.value].height;
    var a :| a in c.index && a + 2 >= top && Agree(c, d, a);
    AgreeIsOnChain(c, d, a);
    IndexDomain(c.blocks, c.tip.value);
    j := top - a;
    assert heights[j] == Some(a);
  }

  lemma HighEntryIsBelow(c: Chain, d: Chain, locator: seq<Hash>, heights: seq<Option<nat>>, tips: seq<Hash>, k: nat, leaf: Hash)
    requires Canonical(c) && Canonical(d) && RootsAtZero(c.blocks) && RootsAtZero(d.blocks) && Consistent(c.blocks, d.blocks)
    requires Laid(c, locator, heights, tips) && k < Highest(c.blocks[c.tip.value].height) && OnChain(d, locator[k])
    requires leaf in Leaves(c) && OnChain(d, leaf)
    ensures d.blocks[locator[k]].height < d.blocks[leaf].height
  {
    var a := c.blocks[c.tip.value].height - k;
    assert heights[k] == Some(a);
    AgreeIsOnChain(c, d, a);
    LeafIsAbove(c, d, a, leaf);
  }

  /**
   For an asker with a branch end on the other node's chain: the match resumes at
   or above that branch end exactly when none of the asker's three highest blocks
   is on the other chain.
   */
  lemma ForkTipResumesIff(c: Chain, d: Chain, locator: seq<Hash>, heights: seq<Option<nat>>, tips: seq<Hash>, r: Option<nat>, t: nat)
    requires Canonical(c) && Canonical(d) && RootsAtZero(c.blocks) && RootsAtZero(d.blocks) && Consistent(c.blocks, d.blocks)
    requires Laid(c, locator, heights, tips) && IsForkTips(c, tips) && IsMatch(d, locator, r)
    requires t < |tips| && OnChain(d, tips[t])
    ensures r.Some? && (r.value >= d.blocks[tips[t]].height <==> !SharesTop(c, d))
  {
    assert OnChain(d, locator[Highest(c.blocks[c.tip.value].height) + t]);
    var k :| && 0 <= k < |locator| && OnChain(d, locator[k]) && d.blocks[locator[k]].height == r.value
             && forall j | 0 <= j < k :: !OnChain(d, locator[j]);
    if SharesTop(c, d) {
      MatchIsHigh(c, d, locator, heights, tips, k, t);
    } else {
      MatchIsForkTip(c, d, locator, heights, tips, k, t);
    }
  }

  /** Our chain 1-2 with the lighter branch 3-4 beside it, and a node that has adopted 3-4. */
  ghost function Asker(): Chain {
    Chain(map[1 := RootBlock(1, ZERO, 0, 0, 0, []), 2 := RootBlock(2, 1, 1, 5, 0, []),
              3 := RootBlock(3, 1, 1, 1, 0, []), 4 := RootBlock(4, 3, 2, 1, 0, [])],
          map[0 := 1, 1 := 2], Some(2))
  }

  ghost function Answerer(): Chain {
    Chain(map[1 := RootBlock(1, ZERO, 0, 0, 0, []), 3 := RootBlock(3, 1, 1, 1, 0, []), 4 := RootBlock(4, 3, 2, 1, 0, [])],
          map[0 := 1, 1 := 3, 2 := 4], Some(4))
  }

  lemma AskerIsCanonical()
    ensures Canonical(Asker()) && RootsAtZero(Asker().blocks) && Leaves(Asker()) == {4}
  {
    var c := Asker();
    var m := c.blocks;
    assert Linked(m) && WeightAt(m, 1) == Some(0) && WeightAt(m, 2) == Some(5);
    assert IndexOf(m, ZERO) == map[];
    assert IndexOf(m, 1) == map[0 := 1];
    assert OffChain(c) == {3, 4};
    assert m[4].prev == 3 && m[3].prev == 1;
  }

  lemma AnswererIsCanonical()
    ensures Canonical(Answerer()) && RootsAtZero(Answerer().blocks) && OnChain(Answerer(), 4)
  {
    var d := Answerer();
    var n := d.blocks;
    assert Linked(n) && WeightAt(n, 1) == Some(0) && WeightAt(n, 3) == Some(1) && WeightAt(n, 4) == Some(2);
    assert IndexOf(n, ZERO) == map[];
    assert IndexOf(n, 1) == map[0 := 1];
    assert IndexOf(n, 3) == map[0 := 1, 1 := 3];
  }

  /** With a fork two blocks deep the match is the fork point, below a branch end the asker already holds. */
  lemma SharedTopWitness()
    ensures var locator, heights := [2, 1, 4, 1], [Some(1), Some(0), None, Some(0)];
            && Laid(Asker(), locator, heights, [4]) && IsForkTips(Asker(), [4])
            && IsMatch(Answerer(), locator, Some(0)) && OnChain(Answerer(), 4) && Answerer().blocks[4].height == 2
  {
    AskerAsks();
    AnswererMatches();
  }

  lemma AskerAsks()
    ensures Laid(Asker(), [2, 1, 4, 1], [Some(1), Some(0), None, Some(0)], [4]) && IsForkTips(Asker(), [4])
  {
    AskerIsCanonical();
  }

  lemma AnswererMatches()
    ensures IsMatch(Answerer(), [2, 1, 4, 1], Some(0)) && OnChain(Answerer(), 4) && Answerer().blocks[4].height == 2
  {
    var d, locator := Answerer(), [2, 1, 4, 1];
    AnswererIsCanonical();
    assert 2 !in d.blocks && locator[0] == 2;
    assert OnChain(d, locator[1]) && d.blocks[1].height == 0;
  }

  lemma NextLinks(d: Chain, k: nat)
    requires Canonical(d) && k in d.index && k + 1 in d.index
    ensures d.index[k + 1] in d.blocks && d.blocks[d.index[k + 1]].prev == d.index[k]
  {
    var n, x := d.blocks, d.index[k + 1];
    IndexPrefix(n, d.tip.value, k + 1);
    IndexPrefix(n, d.tip.value, k);
    assert k in UpTo(d.index, k + 1) && k in IndexOf(n, x);
    assert IndexOf(n, x)[k] == d.index[k];
    var p := n[x].prev;
    assert p in n;
    IndexDomain(n, p);
  }
}

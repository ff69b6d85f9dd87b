/**
 Competing branches held but not adopted, and the periodic adoption pass that
 reconsiders them (src/storage/chain.rs, src/node/router/router.rs).
 */
module ForkTips {
  import opened Wrappers
  import opened ChainModel
  import opened ForkChoice

  const MAX_FORK_LOCATOR_TIPS: nat := 6

  ghost predicate OnChain(c: Chain, h: Hash) {
    h in c.blocks && c.blocks[h].height in c.index && c.index[c.blocks[h].height] == h
  }

  ghost function OffChain(c: Chain): set<Hash> {
    set h | h in c.blocks && !OnChain(c, h)
  }

  /** Ends of the branches we hold: off the canonical index and parent of no off-chain block. */
  ghost function Leaves(c: Chain): set<Hash> {
    set h | h in OffChain(c) && forall d <- OffChain(c) :: c.blocks[d].prev != h
  }

  /** Highest first, lowest hash on ties. */
  predicate Before(m: Blocks, a: Hash, b: Hash) {
    && a in m && b in m
    && (m[a].height > m[b].height || (m[a].height == m[b].height && a < b))
  }

  /** `tips` are the first MAX_FORK_LOCATOR_TIPS leaves in that order. */
  ghost predicate IsForkTips(c: Chain, tips: seq<Hash>) {
    && (forall i | 0 <= i < |tips| :: tips[i] in Leaves(c))
    && (forall i, j | 0 <= i < j < |tips| :: Before(c.blocks, tips[i], tips[j]))
    && |tips| == (if |Leaves(c)| <= MAX_FORK_LOCATOR_TIPS then |Leaves(c)| else MAX_FORK_LOCATOR_TIPS)
    && (forall t <- tips, l <- Leaves(c) :: l !in tips ==> Before(c.blocks, t, l))
  }

  /** The listed branch ends fall in height, rise in hash where heights are equal, and no end left out is higher than one listed. */
  lemma TipsAreHighest(c: Chain, tips: seq<Hash>)
    requires IsForkTips(c, tips)
    ensures forall i | 0 <= i < |tips| :: tips[i] in c.blocks
    ensures forall i, j | 0 <= i < j < |tips| :: c.blocks[tips[i]].height >= c.blocks[tips[j]].height
    ensures forall i, j | 0 <= i < j < |tips| :: c.blocks[tips[i]].height == c.blocks[tips[j]].height ==> tips[i] < tips[j]
    ensures forall i, l | 0 <= i < |tips| && l in Leaves(c) && l !in tips ::
              && c.blocks[l].height <= c.blocks[tips[i]].height
              && (c.blocks[l].height == c.blocks[tips[i]].height ==> tips[i] < l)
    ensures |tips| == Min(6, |Leaves(c)|)
  {
    forall i, l | 0 <= i < |tips| && l in Leaves(c) && l !in tips
      ensures Before(c.blocks, tips[i], l)
    {
      assert tips[i] in tips;
    }
  }

  /** Off-chain blocks that no off-chain block names as its parent. */
  method CollectLeaves(m: Blocks, index: map<nat, Hash>, ghost c: Chain) returns (leaves: set<Hash>)
    requires c.blocks == m && c.index == index
    ensures leaves == Leaves(c)
  {
    var offChain: set<Hash>, hasChild: set<Hash> := {}, {};
    ghost var child: map<Hash, Hash> := map[];
    var todo := m.Keys;
    while todo != {}
      invariant todo <= m.Keys && offChain <= m.Keys
      invariant forall h <- m :: h in offChain <==> h !in todo && !OnChain(c, h)
      invariant forall d <- offChain :: m[d].prev in hasChild
      invariant forall p <- hasChild :: p in child && child[p] in offChain && m[child[p]].prev == p
      decreases todo
    {
      var h :| h in todo;
      todo := todo - {h};
      if !(m[h].height in index && index[m[h].height] == h) {
        hasChild, offChain := hasChild + {m[h].prev}, offChain + {h};
        child := child[m[h].prev := h];
      }
    }
    leaves := offChain - hasChild;
    assert offChain == OffChain(c);
  }

  /** Sorting the leaves and cutting the list: repeatedly takes the foremost remaining one. */
  method FirstInOrder(m: Blocks, leaves: set<Hash>, limit: nat) returns (tips: seq<Hash>)
    requires leaves <= m.Keys
    ensures forall i | 0 <= i < |tips| :: tips[i] in leaves
    ensures forall i, j | 0 <= i < j < |tips| :: Before(m, tips[i], tips[j])
    ensures |tips| == (if |leaves| <= limit then |leaves| else limit)
    ensures forall t <- tips, l <- leaves :: l !in tips ==> Before(m, t, l)
  {
    tips := [];
    var rest := leaves;
    while rest != {} && |tips| < limit
      invariant rest <= leaves && |tips| + |rest| == |leaves| && |tips| <= limit
      invariant forall l <- leaves :: l in tips <==> l !in rest
      invariant forall i | 0 <= i < |tips| :: tips[i] in leaves
      invariant forall i, j | 0 <= i < j < |tips| :: Before(m, tips[i], tips[j])
      invariant forall i, l | 0 <= i < |tips| && l in rest :: Before(m, tips[i], l)
      decreases rest
    {
      var t := Foremost(m, rest);
      tips, rest := tips + [t], rest - {t};
    }
  }

  method Foremost(m: Blocks, s: set<Hash>) returns (t: Hash)
    requires s != {} && s <= m.Keys
    ensures t in s && forall l <- s :: l == t || Before(m, t, l)
  {
    t :| t in s;
    var rest := s - {t};
    while rest != {}
      invariant rest < s && t in s && t !in rest
      invariant forall l <- s :: l == t || l in rest || Before(m, t, l)
      decreases rest
    {
      var x :| x in rest;
      rest := rest - {x};
      if Before(m, x, t) {
        t := x;
      }
    }
  }

  /** Without a tip nothing stored is fully linked. */
  ghost predicate Rooted(c: Chain)
    requires Linked(c.blocks)
  {
    c.tip.None? ==> forall h <- c.blocks :: !Complete(c.blocks, h)
  }

  lemma PutKeepsRooted(c: Chain, b: RootBlock)
    requires Indexed(c) && Rooted(c) && Admissible(c.blocks, b)
    ensures Rooted(PutBlock(c, b))
  {
    var m := c.blocks[b.hash := b];
    if c.tip.None? && !Complete(m, b.hash) {
      forall h <- m
        ensures !Complete(m, h)
      {
        if Complete(m, h) {
          CompleteAncestor(m, h, b.hash);
          if !Descends(m, h, b.hash) {
            WeightElsewhere(c.blocks, b, h);
          }
        }
      }
    }
  }

  ghost function Higher(m: Blocks, k: nat): set<Hash> {
    set h | h in m && m[h].height > k
  }

  /** Each fully linked off-chain block is continued by a leaf at least as heavy. */
  lemma {:induction false} LeafAbove(c: Chain, h: Hash) returns (l: Hash)
    requires Linked(c.blocks) && h in OffChain(c) && Complete(c.blocks, h)
    ensures l in Leaves(c) && Complete(c.blocks, l) && Weight(c.blocks, h) <= Weight(c.blocks, l)
    decreases |Higher(c.blocks, c.blocks[h].height)|
  {
    var m := c.blocks;
    if d :| d in OffChain(c) && m[d].prev == h {
      WeightBounded(m, h);
      assert d in Higher(m, m[h].height) && d !in Higher(m, m[d].height);
      assert Higher(m, m[d].height) < Higher(m, m[h].height);
      Shrinks(Higher(m, m[d].height), Higher(m, m[h].height));
      l := LeafAbove(c, d);
    } else {
      l := h;
    }
  }

  lemma Shrinks(s: set<Hash>, t: set<Hash>)
    requires s < t
    ensures |s| < |t|
  {
    assert |t - s| == |t| - |s|;
    var x :| x in t && x !in s;
    assert x in t - s;
  }

  ghost function AsSet(tips: seq<Hash>): set<Hash> {
    set t | t in tips
  }

  lemma {:induction false} TipsAsSet(tips: seq<Hash>)
    requires forall i, j | 0 <= i < j < |tips| :: tips[i] != tips[j]
    ensures |AsSet(tips)| == |tips|
  {
    if tips != [] {
      var n := |tips| - 1;
      TipsAsSet(tips[..n]);
      assert tips[n] !in AsSet(tips[..n]);
      assert AsSet(tips) == AsSet(tips[..n]) + {tips[n]};
    } else {
      assert AsSet(tips) == {};
    }
  }

  lemma TipsAreDistinct(c: Chain, tips: seq<Hash>)
    requires IsForkTips(c, tips)
    ensures |AsSet(tips)| == |tips| && AsSet(tips) <= Leaves(c)
  {
    forall i, j | 0 <= i < j < |tips|
      ensures tips[i] != tips[j]
    {
      assert Before(c.blocks, tips[i], tips[j]);
    }
    TipsAsSet(tips);
  }

  /** The listed branch ends, when there are at most six, are all the branch ends. */
  lemma TipsAreLeaves(c: Chain, tips: seq<Hash>)
    requires IsForkTips(c, tips) && |Leaves(c)| <= MAX_FORK_LOCATOR_TIPS
    ensures Leaves(c) == AsSet(tips)
  {
    TipsAreDistinct(c, tips);
    if AsSet(tips) != Leaves(c) {
      Shrinks(AsSet(tips), Leaves(c));
    }
  }

  /** Nothing complete outside `tips` ends heavier than `w`. */
  ghost predicate UnlistedWithin(c: Chain, tips: seq<Hash>, w: nat)
    requires Linked(c.blocks)
  {
    forall l <- Leaves(c) :: l !in tips && Complete(c.blocks, l) ==> Weight(c.blocks, l) <= w
  }

  /**
   For any number of branch ends: a weight that the tip and the listed ends stay
   within bounds the whole store if and only if it bounds the ends not listed.
   */
  lemma UnlistedDecide(c: Chain, tips: seq<Hash>, w: nat)
    requires Indexed(c) && Rooted(c) && w >= TipWeight(c)
    requires forall t <- tips :: Complete(c.blocks, t) ==> Weight(c.blocks, t) <= w
    ensures (forall h <- c.blocks :: Complete(c.blocks, h) ==> Weight(c.blocks, h) <= w) <==> UnlistedWithin(c, tips, w)
  {
    var m := c.blocks;
    if UnlistedWithin(c, tips, w) {
      forall h <- m | Complete(m, h)
        ensures Weight(m, h) <= w
      {
        if h in OffChain(c) {
          var l := LeafAbove(c, h);
        }
      }
    }
  }

  /** The weight of the best of the tip and the complete listed ends. */
  ghost function ListedWeight(c: Chain, tips: seq<Hash>): (w: nat)
    requires Linked(c.blocks)
    ensures w >= TipWeight(c) && forall t <- tips :: Complete(c.blocks, t) ==> Weight(c.blocks, t) <= w
    ensures w == TipWeight(c) || exists t :: t in tips && Complete(c.blocks, t) && Weight(c.blocks, t) == w
  {
    if tips == [] then TipWeight(c)
    else Max(ListedWeight(c, tips[1..]), if Complete(c.blocks, tips[0]) then Weight(c.blocks, tips[0]) else 0)
  }

  /** With at most six branch ends none is left out of the list. */
  lemma FewAreAllListed(c: Chain, tips: seq<Hash>, w: nat)
    requires Linked(c.blocks) && IsForkTips(c, tips) && |Leaves(c)| <= MAX_FORK_LOCATOR_TIPS
    ensures UnlistedWithin(c, tips, w)
  {
    TipsAreLeaves(c, tips);
  }

  /** No listed end outweighs the tip: staying is heaviest exactly when no unlisted end outweighs it. */
  lemma StayingIsHeaviestIff(c: Chain, tips: seq<Hash>)
    requires Indexed(c) && Rooted(c)
    requires forall t <- tips :: Complete(c.blocks, t) ==> Weight(c.blocks, t) <= TipWeight(c)
    ensures ListedWeight(c, tips) == TipWeight(c)
    ensures Heaviest(c) <==> UnlistedWithin(c, tips, TipWeight(c))
  {
    UnlistedDecide(c, tips, TipWeight(c));
  }

  /** Adopting the heaviest listed end: the new tip weighs what was listed, and is heaviest exactly when no unlisted end outweighs it. */
  lemma AdoptingIsHeaviestIff(c: Chain, tips: seq<Hash>, b: RootBlock)
    requires Indexed(c) && Rooted(c) && b.hash in tips && b.hash in c.blocks && c.blocks[b.hash] == b
    requires Complete(c.blocks, b.hash) && Weight(c.blocks, b.hash) > TipWeight(c)
    requires forall t <- tips :: Complete(c.blocks, t) ==> Weight(c.blocks, t) <= Weight(c.blocks, b.hash)
    ensures Admissible(c.blocks, b) && Adopts(c, b) && PutBlock(c, b).blocks == c.blocks
    ensures TipWeight(PutBlock(c, b)) == ListedWeight(c, tips) == Weight(c.blocks, b.hash)
    ensures Heaviest(PutBlock(c, b)) <==> UnlistedWithin(c, tips, Weight(c.blocks, b.hash))
  {
    assert c.blocks[b.hash := b] == c.blocks;
    CanonicalIff(c);
    UnlistedDecide(c, tips, Weight(c.blocks, b.hash));
  }

  /** The tip is a heaviest chain if and only if no complete branch end outweighs it. */
  lemma LeavesDecideHeaviest(c: Chain)
    requires Indexed(c) && Rooted(c)
    ensures Heaviest(c) <==> forall l <- Leaves(c) :: Complete(c.blocks, l) ==> Weight(c.blocks, l) <= TipWeight(c)
  {
    UnlistedDecide(c, [], TipWeight(c));
  }

  /** Six higher branch ends, none of them fully linked, hide a seventh from the pass. */
  lemma CrowdedOut(c: Chain, hidden: Hash, strays: set<Hash>, tips: seq<Hash>)
    requires Linked(c.blocks) && IsForkTips(c, tips)
    requires Leaves(c) == {hidden} + strays && hidden !in strays && |strays| == MAX_FORK_LOCATOR_TIPS
    requires forall s <- strays :: !Complete(c.blocks, s) && Before(c.blocks, s, hidden)
    ensures forall t <- tips :: !Complete(c.blocks, t)
  {
    TipsAreDistinct(c, tips);
    assert |Leaves(c)| == 7;
    var missing := MissingLeaf(c, tips);
  }

  lemma MissingLeaf(c: Chain, tips: seq<Hash>) returns (l: Hash)
    requires IsForkTips(c, tips) && |Leaves(c)| > MAX_FORK_LOCATOR_TIPS
    ensures l in Leaves(c) && l !in tips
  {
    TipsAreDistinct(c, tips);
    assert AsSet(tips) != Leaves(c);
    l :| l in Leaves(c) && l !in AsSet(tips);
  }

  ghost predicate IsStray(i: Hash) {
    10 <= i < 16
  }

  ghost function Strays(): set<Hash> {
    set i: Hash | i < 16 && IsStray(i)
  }

  /** A one-block chain 1-2, a heavier branch 3-4 beside it, and six strays high up. */
  ghost function CrowdBlock(i: Hash): RootBlock {
    if i == 1 then RootBlock(1, ZERO, 0, 0, 0, [])
    else if i == 2 then RootBlock(2, 1, 1, 1, 0, [])
    else if i == 3 then RootBlock(3, 1, 1, 1, 0, [])
    else if i == 4 then RootBlock(4, 3, 2, 50, 0, [])
    else RootBlock(i, i + 90, 50, 0, 0, [])
  }

  ghost predicate InCrowd(i: Hash) {
    1 <= i <= 4 || IsStray(i)
  }

  ghost function Crowd(): Chain {
    Chain(map i: Hash | i < 16 && InCrowd(i) :: CrowdBlock(i), map[0 := 1, 1 := 2], Some(2))
  }

  lemma CrowdWeights()
    ensures Linked(Crowd().blocks)
    ensures WeightAt(Crowd().blocks, 2) == Some(1) && WeightAt(Crowd().blocks, 4) == Some(51)
    ensures Crowd().index == IndexOf(Crowd().blocks, 2)
    ensures forall i <- Strays() :: WeightAt(Crowd().blocks, i) == None
  {
    var m := Crowd().blocks;
    assert WeightAt(m, 1) == Some(0);
    assert WeightAt(m, 3) == Some(1);
    assert IndexOf(m, ZERO) == map[];
    assert IndexOf(m, 1) == map[0 := 1];
    forall i <- Strays()
      ensures WeightAt(m, i) == None
    {
      assert IsStray(i) && i in m && m[i].prev == i + 90;
      assert WeightAt(m, i + 90) == None;
    }
  }

  lemma CrowdLeaves()
    ensures Leaves(Crowd()) == {4} + Strays()
  {
    var c := Crowd();
    assert c.blocks[4].prev == 3 && 4 in OffChain(c);
    forall h
      ensures h in Leaves(c) <==> h in {4} + Strays()
    {
      if h == 4 || IsStray(h) {
        assert h in OffChain(c);
        assert forall d <- OffChain(c) :: c.blocks[d].prev != h;
      }
    }
  }

  lemma StrayCount()
    ensures |Strays()| == 6
  {
    assert Strays() == {10, 11, 12, 13, 14, 15};
  }

  /** A store whose adoption pass sees no adoptable tip although it holds a heavier, fully linked chain. */
  lemma CrowdedOutWitness()
    ensures exists c: Chain ::
              && Canonical(c) && Rooted(c) && !Heaviest(c)
              && forall tips: seq<Hash> :: IsForkTips(c, tips) ==> forall t <- tips :: !Complete(c.blocks, t)
  {
    var c := Crowd();
    CrowdWeights();
    CrowdLeaves();
    StrayCount();
    assert InCrowd(4) && 4 in c.blocks && Complete(c.blocks, 4);
    assert !Heaviest(c);
    forall tips: seq<Hash> | IsForkTips(c, tips)
      ensures forall t <- tips :: !Complete(c.blocks, t)
    {
      CrowdedOut(c, 4, Strays(), tips);
    }
  }
}

/**
 Blocks whose claimed height does not follow their parent's. The header path
 stores such a block (src/node/router/router.rs, src/sync/header_sync.rs check
 linkage, difficulty and time, not height), and fork choice can adopt it
 (src/storage/chain.rs). This is what adoption does to the height index when the
 block's parent is canonical.
 */
module HeightGap {
  import opened Wrappers
  import opened ChainModel
  import opened ForkChoice
  import opened ForkTips

  /** A new block, of any height, on top of a canonical one. */
  ghost predicate NewChild(c: Chain, b: RootBlock) {
    b.hash != ZERO && b.hash !in c.blocks && b.prev != ZERO && OnChain(c, b.prev)
  }

  /** What truncating above the block and writing it at its own height leaves. */
  ghost function WithChild(idx: map<nat, Hash>, b: RootBlock): map<nat, Hash> {
    UpTo(idx, b.height)[b.height := b.hash]
  }

  /** The block's chain is heavier than the tip's, or it extends the tip by one. */
  ghost predicate AdoptsChild(c: Chain, b: RootBlock)
    requires Linked(c.blocks) && NewChild(c, b)
  {
    || c.tip.None? || DirectlyExtends(c.blocks, b, c.tip.value)
    || SaturatingAdd(Weight(c.blocks, b.prev), b.totalPow) > TipWeight(c)
  }

  lemma ClosedBelow(m: Blocks, m': Blocks, idx: map<nat, Hash>, k: nat, h: nat)
    requires Closed(m, idx) && Extends(m, m') && k in idx && k < h
    ensures OnParent(m', UpTo(idx, h), k)
  {
    assert OnParent(m, idx, k);
  }

  /** The rewritten index is still closed under parents if and only if the block's height is one above its parent's. */
  lemma ChildStaysClosedIff(c: Chain, b: RootBlock)
    requires Closed(c.blocks, c.index) && NewChild(c, b)
    ensures Closed(c.blocks[b.hash := b], WithChild(c.index, b)) <==> b.height == c.blocks[b.prev].height + 1
  {
    var m, now := c.blocks[b.hash := b], WithChild(c.index, b);
    var k := c.blocks[b.prev].height;
    assert OnParent(c.blocks, c.index, k);
    if b.height == k + 1 {
      forall i <- now
        ensures OnParent(m, now, i)
      {
        if i < b.height {
          ClosedBelow(c.blocks, m, c.index, i, b.height);
        }
      }
    } else {
      assert b.height in now && now[b.height] == b.hash;
      ParentElsewhere(c, b);
    }
  }

  lemma ParentElsewhere(c: Chain, b: RootBlock)
    requires Closed(c.blocks, c.index) && NewChild(c, b) && b.height != c.blocks[b.prev].height + 1
    ensures !OnParent(c.blocks[b.hash := b], WithChild(c.index, b), b.height)
  {
    assert forall k <- c.index :: OnParent(c.blocks, c.index, k);
  }

  /** For a block of the right height this is exactly the general step. */
  lemma ChildIsPutBlock(c: Chain, b: RootBlock)
    requires Indexed(c) && NewChild(c, b) && Admissible(c.blocks, b)
    ensures Adopts(c, b) <==> AdoptsChild(c, b)
    ensures AdoptsChild(c, b) ==> PutBlock(c, b) == Chain(c.blocks[b.hash := b], WithChild(c.index, b), Some(b.hash))
  {
    var m := c.blocks[b.hash := b];
    var k := c.blocks[b.prev].height;
    ClosedIsAncestry(c.blocks, c.index, k);
    WeightStable(c.blocks, m, b.prev);
    IndexedGrows(c, m);
    assert WeightAt(m, b.hash) == Some(SaturatingAdd(Weight(c.blocks, b.prev), b.totalPow));
    ChildIndex(c, b);
  }

  lemma ChildIndex(c: Chain, b: RootBlock)
    requires Indexed(c) && NewChild(c, b) && Admissible(c.blocks, b)
    ensures Rebase(c.index, c.blocks[b.hash := b], b.hash) == WithChild(c.index, b)
  {
    var m := c.blocks[b.hash := b];
    IndexedGrows(c, m);
    var left, right := Rebase(c.index, m, b.hash), WithChild(c.index, b);
    forall j: nat
      ensures j in left <==> j in right
      ensures j in left ==> left[j] == right[j]
    {
      ChildIndexAt(m, c.index, b, j);
    }
    assert left.Keys == right.Keys;
  }

  lemma ChildIndexAt(m: Blocks, idx: map<nat, Hash>, b: RootBlock, j: nat)
    requires Linked(m) && Closed(m, idx) && b.hash in m && m[b.hash] == b && b.prev in m
    requires m[b.prev].height in idx && idx[m[b.prev].height] == b.prev
    ensures j in Rebase(idx, m, b.hash) <==> j in WithChild(idx, b)
    ensures j in Rebase(idx, m, b.hash) ==> Rebase(idx, m, b.hash)[j] == WithChild(idx, b)[j]
  {
    ClosedIsAncestry(m, idx, m[b.prev].height);
    IndexDomain(m, b.prev);
    BaseIsLow(m, b.prev);
    assert Base(m, b.hash) == Base(m, b.prev) && IndexOf(m, b.hash) == IndexOf(m, b.prev)[b.height := b.hash];
  }

  /** A header that claims height nine on a chain of height one is adopted and leaves seven heights without an entry. */
  lemma GapWitness()
    ensures var c := Chain(map[1 := RootBlock(1, ZERO, 0, 1, 0, []), 2 := RootBlock(2, 1, 1, 5, 0, [])], map[0 := 1, 1 := 2], Some(2));
            var b := RootBlock(3, 2, 9, 5, 0, []);
            && Canonical(c) && NewChild(c, b) && AdoptsChild(c, b) && WithChild(c.index, b) == map[0 := 1, 1 := 2, 9 := 3]
            && !Closed(c.blocks[3 := b], WithChild(c.index, b))
  {
    var m := map[1 := RootBlock(1, ZERO, 0, 1, 0, []), 2 := RootBlock(2, 1, 1, 5, 0, [])];
    var c := Chain(m, map[0 := 1, 1 := 2], Some(2));
    assert Linked(m) && WeightAt(m, 1) == Some(1) && WeightAt(m, 2) == Some(6);
    assert IndexOf(m, ZERO) == map[];
    assert IndexOf(m, 1) == map[0 := 1];
    CanonicalIsIndexed(c);
    ChildStaysClosedIff(c, RootBlock(3, 2, 9, 5, 0, []));
  }
}

/**
 Fork choice as a step function on the chain's value, and what it guarantees
 over every run of deliveries (src/storage/chain.rs).
 */
module ForkChoice {
  import opened Wrappers
  import opened ChainModel

  /** What the store persists about the chain: blocks, canonical height index, best tip. */
  datatype Chain = Chain(blocks: Blocks, index: map<nat, Hash>, tip: Option<Hash>)

  const EMPTY: Chain := Chain(map[], map[], None)

  /** The height index is exactly the ancestry of the best tip, which is complete. */
  ghost predicate Canonical(c: Chain) {
    && Linked(c.blocks)
    && match c.tip
       case None => c.index == map[]
       case Some(t) => Complete(c.blocks, t) && c.index == IndexOf(c.blocks, t)
  }

  /** Every entry is a stored block of that height, and the entry below it is its parent unless it has none. */
  ghost predicate Closed(m: Blocks, idx: map<nat, Hash>) {
    forall k <- idx :: OnParent(m, idx, k)
  }

  ghost predicate OnParent(m: Blocks, idx: map<nat, Hash>, k: nat) {
    && k in idx && idx[k] in m && m[idx[k]].height == k
    && (m[idx[k]].prev == ZERO || (k > 0 && k - 1 in idx && idx[k - 1] == m[idx[k]].prev))
  }

  /** The index ends in the best tip, is closed under parents, and lists nothing heavier than the tip. */
  ghost predicate Indexed(c: Chain) {
    && Linked(c.blocks) && Closed(c.blocks, c.index)
    && match c.tip
       case None => c.index == map[]
       case Some(t) =>
         && t in c.blocks && c.blocks[t].height in c.index && c.index[c.blocks[t].height] == t
         && forall k <- c.index :: k <= c.blocks[t].height && Weight(c.blocks, c.index[k]) <= Weight(c.blocks, t)
  }

  ghost predicate DirectlyExtends(m: Blocks, b: RootBlock, t: Hash) {
    t in m && b.height == m[t].height + 1 && b.prev == t
  }

  /**
   Whether `b`, already filed in `m`, is to replace `tip`. A missing tip always
   gives way; a tip whose own ancestry has a gap is compared by the recorded work.
   */
  ghost predicate Heavier(m: Blocks, tip: Option<Hash>, b: RootBlock)
    requires Linked(m)
  {
    tip.None? || tip.value !in m || DirectlyExtends(m, b, tip.value) ||
    match (WeightAt(m, b.hash), WeightAt(m, tip.value))
    case (Some(x), Some(y)) => x > y
    case (None, _) => false
    case (Some(_), None) => b.cumulativePow > m[tip.value].cumulativePow
  }

  /** The old index where the new chain does not reach, the new chain's own index elsewhere. */
  ghost function Rebase(idx: map<nat, Hash>, m: Blocks, h: Hash): map<nat, Hash>
    requires Linked(m) && h in m
  {
    UpTo(idx, Base(m, h) - 1) + IndexOf(m, h)
  }

  /** `b` may be filed: no other block has its hash, and heights stay consistent with stored relatives. */
  ghost predicate Admissible(m: Blocks, b: RootBlock) {
    && Linked(m)
    && (b.hash in m ==> m[b.hash] == b)
    && Linked(m[b.hash := b])
  }

  ghost function PutBlock(c: Chain, b: RootBlock): Chain
    requires Admissible(c.blocks, b)
  {
    var m := c.blocks[b.hash := b];
    if Heavier(m, c.tip, b) && Complete(m, b.hash)
    then Chain(m, Rebase(c.index, m, b.hash), Some(b.hash))
    else c.(blocks := m)
  }

  // ------------------------------------------------------------------ the height index

  /**
   Switching tips leaves an index that is exactly the new chain if and only if
   the new chain reaches down at least as far as the old one did. Otherwise the
   losing chain's entries below the new base survive in the index.
   */
  lemma RebaseIsExact(m: Blocks, old_: Hash, h: Hash)
    requires Linked(m) && Complete(m, old_) && h in m
    ensures Rebase(IndexOf(m, old_), m, h) == IndexOf(m, h) <==> Base(m, h) <= Base(m, old_)
  {
    IndexDomain(m, old_);
    IndexDomain(m, h);
    BaseIsLow(m, old_);
    if Base(m, h) <= Base(m, old_) {
      assert UpTo(IndexOf(m, old_), Base(m, h) - 1) == map[];
    } else {
      var k := Base(m, old_);
      assert k in IndexOf(m, old_) && k in UpTo(IndexOf(m, old_), Base(m, h) - 1);
      assert k in Rebase(IndexOf(m, old_), m, h) && k !in IndexOf(m, h);
    }
  }

  /** From any entry downwards, a closed index is the ancestry of that entry. */
  lemma {:induction false} ClosedIsAncestry(m: Blocks, idx: map<nat, Hash>, k: nat)
    requires Linked(m) && Closed(m, idx) && k in idx
    ensures Complete(m, idx[k])
    ensures forall j <- IndexOf(m, idx[k]) :: j in idx && idx[j] == IndexOf(m, idx[k])[j]
    decreases k
  {
    var h := idx[k];
    assert OnParent(m, idx, k) && WeightAt(m, ZERO).Some?;
    if m[h].prev != ZERO {
      ClosedIsAncestry(m, idx, k - 1);
    } else {
      assert IndexOf(m, ZERO) == map[];
    }
  }

  /** An index kept by the node is exactly the tip's ancestry if and only if it has no entry below where that chain starts. */
  lemma CanonicalIff(c: Chain)
    requires Indexed(c)
    ensures c.tip.Some? ==> Complete(c.blocks, c.tip.value)
    ensures Canonical(c) <==> (c.tip.Some? ==> forall k <- c.index :: k >= Base(c.blocks, c.tip.value))
  {
    if c.tip.Some? {
      var m, t := c.blocks, c.tip.value;
      ClosedIsAncestry(m, c.index, m[t].height);
      IndexDomain(m, t);
      if forall k <- c.index :: k >= Base(m, t) {
        assert c.index.Keys == IndexOf(m, t).Keys;
        assert c.index == IndexOf(m, t);
      }
    }
  }

  lemma CanonicalIsIndexed(c: Chain)
    requires Canonical(c)
    ensures Indexed(c)
  {
    if c.tip.Some? {
      var m, t := c.blocks, c.tip.value;
      IndexDomain(m, t);
      BaseIsLow(m, t);
      forall k <- c.index
        ensures OnParent(m, c.index, k) && Weight(m, c.index[k]) <= Weight(m, t)
      {
        OnChainIsLighter(m, t, k);
        AncestryIsClosed(m, t, k);
      }
    }
  }

  /** In an ancestry the entry below a block is its parent. */
  lemma AncestryIsClosed(m: Blocks, t: Hash, k: nat)
    requires Linked(m) && Complete(m, t) && k in IndexOf(m, t)
    ensures OnParent(m, IndexOf(m, t), k)
  {
    IndexPrefix(m, t, k);
    var h := IndexOf(m, t)[k];
    if m[h].prev != ZERO {
      assert WeightAt(m, m[h].prev).Some? && m[h].prev in m;
      assert k - 1 in IndexOf(m, m[h].prev) && IndexOf(m, m[h].prev)[k - 1] == m[h].prev;
      assert IndexOf(m, h) == UpTo(IndexOf(m, t), k);
      assert k - 1 in IndexOf(m, h) && IndexOf(m, h)[k - 1] == m[h].prev;
    }
  }

  /** With every parentless block at height zero the kept index is exactly the ancestry. */
  lemma RootedAtZeroIsCanonical(c: Chain)
    requires Indexed(c) && RootsAtZero(c.blocks)
    ensures Canonical(c)
  {
    CanonicalIff(c);
    if c.tip.Some? {
      BaseIsLow(c.blocks, c.tip.value);
    }
  }

  lemma IndexedGrows(c: Chain, m: Blocks)
    requires Indexed(c) && Linked(m) && Extends(c.blocks, m)
    ensures Indexed(c.(blocks := m))
    ensures c.tip.Some? ==> Complete(c.blocks, c.tip.value) && WeightAt(m, c.tip.value) == WeightAt(c.blocks, c.tip.value)
  {
    forall k <- c.index
      ensures WeightAt(m, c.index[k]) == WeightAt(c.blocks, c.index[k])
    {
      ClosedIsAncestry(c.blocks, c.index, k);
      WeightStable(c.blocks, m, c.index[k]);
    }
    if c.tip.Some? {
      ClosedIsAncestry(c.blocks, c.index, c.blocks[c.tip.value].height);
    }
  }

  lemma CanonicalGrows(c: Chain, m: Blocks)
    requires Canonical(c) && Linked(m) && Extends(c.blocks, m)
    ensures Canonical(c.(blocks := m))
  {
    if c.tip.Some? {
      WeightStable(c.blocks, m, c.tip.value);
      IndexStable(c.blocks, m, c.tip.value);
    }
  }

  /** Writing a chain over a closed index leaves a closed index. */
  lemma RebaseIsClosed(m: Blocks, idx: map<nat, Hash>, h: Hash)
    requires Linked(m) && Closed(m, idx) && Complete(m, h)
    ensures Closed(m, Rebase(idx, m, h))
    ensures forall k <- Rebase(idx, m, h) :: k <= m[h].height
  {
    IndexDomain(m, h);
    BaseIsLow(m, h);
    var now := Rebase(idx, m, h);
    forall k <- now
      ensures OnParent(m, now, k)
    {
      if k in IndexOf(m, h) {
        AncestryIsClosed(m, h, k);
      } else {
        assert OnParent(m, idx, k);
      }
    }
  }

  ghost predicate Adopts(c: Chain, b: RootBlock)
    requires Admissible(c.blocks, b)
  {
    var m := c.blocks[b.hash := b];
    Heavier(m, c.tip, b) && Complete(m, b.hash)
  }

  /**
   A delivery files the block and either leaves chain and index alone or makes the
   block the tip. It makes it the tip exactly when every ancestor is stored and there
   is no tip to beat, or it extends the tip, or it outweighs it, or the tip has a gap
   below it and records less work.
   */
  lemma PutAdoptsIff(c: Chain, b: RootBlock)
    requires Admissible(c.blocks, b)
    ensures var m, d := c.blocks[b.hash := b], PutBlock(c, b);
            && d.blocks == m && (d == Chain(m, c.index, c.tip) || d.tip == Some(b.hash))
            && (Adopts(c, b) <==>
                  && WeightAt(m, b.hash).Some? && b.hash != ZERO
                  && (c.tip.None? || c.tip.value !in m
                      || (b.prev == c.tip.value && b.height == m[c.tip.value].height + 1)
                      || (WeightAt(m, c.tip.value).Some? && Weight(m, b.hash) > Weight(m, c.tip.value))
                      || (WeightAt(m, c.tip.value).None? && b.cumulativePow > m[c.tip.value].cumulativePow)))
            && (Adopts(c, b) ==> d.tip == Some(b.hash)) && (!Adopts(c, b) ==> d == Chain(m, c.index, c.tip))
  {
  }

  /** Every delivery, of any admissible block, keeps the index closed and ending in the best tip. */
  lemma PutKeepsIndexed(c: Chain, b: RootBlock)
    requires Indexed(c) && Admissible(c.blocks, b)
    ensures Indexed(PutBlock(c, b))
  {
    var m := c.blocks[b.hash := b];
    IndexedGrows(c, m);
    if Adopts(c, b) {
      var now := Rebase(c.index, m, b.hash);
      RebaseIsClosed(m, c.index, b.hash);
      IndexDomain(m, b.hash);
      TipAfterPut(c, b);
      forall k <- now
        ensures Weight(m, now[k]) <= Weight(m, b.hash)
      {
        if k in IndexOf(m, b.hash) {
          OnChainIsLighter(m, b.hash, k);
        }
      }
    }
  }

  /** An exact index stays exact if and only if a block that is adopted starts no higher than the chain it replaces. */
  lemma PutKeepsCanonicalIff(c: Chain, b: RootBlock)
    requires Canonical(c) && Admissible(c.blocks, b)
    ensures Canonical(PutBlock(c, b)) <==>
            (Adopts(c, b) && c.tip.Some? ==> Base(c.blocks[b.hash := b], b.hash) <= Base(c.blocks, c.tip.value))
  {
    var m := c.blocks[b.hash := b];
    CanonicalGrows(c, m);
    if Adopts(c, b) {
      if c.tip.Some? {
        IndexStable(c.blocks, m, c.tip.value);
        RebaseIsExact(m, c.tip.value, b.hash);
      } else {
        assert Rebase(map[], m, b.hash) == IndexOf(m, b.hash);
      }
    }
  }

  /** A root block that claims height 5 and no parent is adopted over a lighter chain and leaves its entries behind. */
  lemma StaleIndexWitness()
    ensures exists c: Chain, b: RootBlock ::
              && Canonical(c) && Admissible(c.blocks, b)
              && PutBlock(c, b).tip == Some(b.hash) && !Canonical(PutBlock(c, b))
  {
    var g := RootBlock(1, ZERO, 0, 1, 0, []);
    var b := RootBlock(2, ZERO, 5, 9, 0, []);
    var m := map[1 := g];
    var c := Chain(m, map[0 := 1], Some(1));
    assert Linked(m) && WeightAt(m, 1) == Some(1);
    assert IndexOf(m, ZERO) == map[];
    assert IndexOf(m, 1) == map[][0 := 1];
    var m' := m[2 := b];
    assert WeightAt(m', 1) == Some(1) && WeightAt(m', 2) == Some(9);
    assert Base(m', 1) == 0 && Base(m', 2) == 5;
    WeightStable(m, m', 1);
    IndexStable(m, m', 1);
    RebaseIsExact(m', 1, 2);
  }

  // ------------------------------------------------------------------ heaviest chain

  /** No stored, fully linked block outweighs the tip. */
  ghost predicate Heaviest(c: Chain)
    requires Linked(c.blocks)
  {
    forall h <- c.blocks :: Complete(c.blocks, h) ==> c.tip.Some? && Weight(c.blocks, h) <= Weight(c.blocks, c.tip.value)
  }

  /** `d` is `h` or one of its stored descendants. */
  ghost predicate Descends(m: Blocks, d: Hash, h: Hash)
    requires Linked(m)
    decreases Rank(m, d)
  {
    d == h || (d in m && Descends(m, m[d].prev, h))
  }

  /** A block whose ancestry avoids the new one weighs what it weighed before. */
  lemma {:induction false} WeightElsewhere(m: Blocks, b: RootBlock, h: Hash)
    requires Admissible(m, b) && h in m[b.hash := b]
    requires !Descends(m[b.hash := b], h, b.hash)
    requires Complete(m[b.hash := b], h)
    ensures h in m && Complete(m, h) && Weight(m, h) == Weight(m[b.hash := b], h)
    decreases Rank(m[b.hash := b], h)
  {
    var m' := m[b.hash := b];
    assert WeightAt(m', m'[h].prev).Some?;
    if m[h].prev != ZERO {
      WeightElsewhere(m, b, m[h].prev);
    }
    assert WeightAt(m, m[h].prev) == WeightAt(m', m[h].prev);
  }

  ghost function TipWeight(c: Chain): nat
    requires Linked(c.blocks)
  {
    if c.tip.None? then 0 else Weight(c.blocks, c.tip.value)
  }

  /** The tip a delivery leaves weighs exactly the heavier of the old tip and the block itself, if that is complete. */
  lemma TipAfterPut(c: Chain, b: RootBlock)
    requires Indexed(c) && Admissible(c.blocks, b)
    ensures var c' := PutBlock(c, b);
            && TipWeight(c') == (if Complete(c'.blocks, b.hash) then Max(TipWeight(c), Weight(c'.blocks, b.hash)) else TipWeight(c))
            && (c.tip.Some? || Complete(c'.blocks, b.hash) <==> c'.tip.Some?)
  {
    var m := c.blocks[b.hash := b];
    IndexedGrows(c, m);
    if c.tip.Some? {
      WeightBounded(m, c.tip.value);
      if DirectlyExtends(m, b, c.tip.value) {
        assert WeightAt(m, b.hash) == Some(SaturatingAdd(Weight(m, c.tip.value), b.totalPow));
      }
    }
  }

  lemma {:induction false} CompleteAncestor(m: Blocks, h: Hash, a: Hash)
    requires Linked(m) && Complete(m, h) && a in m
    ensures Descends(m, h, a) ==> Complete(m, a)
    decreases Rank(m, h)
  {
    if h != a {
      assert WeightAt(m, m[h].prev).Some?;
      if m[h].prev == ZERO {
        assert !Descends(m, ZERO, a);
      } else {
        CompleteAncestor(m, m[h].prev, a);
      }
    }
  }

  /** No stored descendant of `b` that `b` completes outweighs both `b` and the tip. */
  ghost predicate NothingHeavierWaits(c: Chain, b: RootBlock)
    requires Admissible(c.blocks, b) && Linked(c.blocks)
  {
    var m := c.blocks[b.hash := b];
    Complete(m, b.hash) ==>
      forall d <- m :: d != b.hash && Descends(m, d, b.hash) && Complete(m, d) ==>
                         Weight(m, d) <= Max(TipWeight(c), Weight(m, b.hash))
  }

  /**
   Exactly when a delivery leaves the heaviest chain on top, read off the store
   before it: no stored descendant completed by the arrival outweighs both the
   tip and the arrival. A branch whose lower blocks arrive last is what breaks it.
   */
  lemma PutKeepsHeaviestIff(c: Chain, b: RootBlock)
    requires Indexed(c) && Heaviest(c) && Admissible(c.blocks, b)
    ensures Heaviest(PutBlock(c, b)) <==> NothingHeavierWaits(c, b)
  {
    var c' := PutBlock(c, b);
    var m := c'.blocks;
    TipAfterPut(c, b);
    forall h <- m | Complete(m, h)
      ensures h == b.hash || !Descends(m, h, b.hash) ==> c'.tip.Some? && Weight(m, h) <= TipWeight(c')
      ensures Descends(m, h, b.hash) ==> Complete(m, b.hash)
    {
      CompleteAncestor(m, h, b.hash);
      if !Descends(m, h, b.hash) {
        WeightElsewhere(c.blocks, b, h);
      }
    }
  }

  ghost predicate Childless(m: Blocks, h: Hash) {
    forall d <- m :: m[d].prev != h
  }

  lemma {:induction false} ChildlessHasNoDescendants(m: Blocks, d: Hash, h: Hash)
    requires Linked(m) && Childless(m, h) && d != h
    ensures !Descends(m, d, h)
    decreases Rank(m, d)
  {
    if d in m {
      ChildlessHasNoDescendants(m, m[d].prev, h);
    }
  }

  /** Delivering a block that is already stored, or whose children are not stored, keeps the heaviest chain on top. */
  lemma PutKeepsHeaviest(c: Chain, b: RootBlock)
    requires Indexed(c) && Heaviest(c) && Admissible(c.blocks, b)
    requires b.hash in c.blocks || Childless(c.blocks[b.hash := b], b.hash)
    ensures Heaviest(PutBlock(c, b))
  {
    var m := c.blocks[b.hash := b];
    TipAfterPut(c, b);
    if b.hash in c.blocks {
      assert m == c.blocks;
    } else {
      PutKeepsHeaviestIff(c, b);
      forall d <- m | d != b.hash
        ensures !Descends(m, d, b.hash)
      {
        ChildlessHasNoDescendants(m, d, b.hash);
      }
    }
  }

  /** Genesis and a1 are held; b2 arrives before its parent b1 and is never looked at again. */
  lemma OutOfOrderWitness()
    ensures var g, a1, b1, b2 := RootBlock(1, ZERO, 0, 0, 0, []), RootBlock(2, 1, 1, 5, 0, []),
                                 RootBlock(3, 1, 1, 1, 0, []), RootBlock(4, 3, 2, 99, 0, []);
            exists c: Chain ::
              && c.blocks == map[1 := g, 2 := a1, 4 := b2] && Canonical(c) && Heaviest(c)
              && Admissible(c.blocks, b1) && PutBlock(c, b1).tip == Some(2) && !Heaviest(PutBlock(c, b1))
  {
    var g, a1, b1, b2 := RootBlock(1, ZERO, 0, 0, 0, []), RootBlock(2, 1, 1, 5, 0, []),
                         RootBlock(3, 1, 1, 1, 0, []), RootBlock(4, 3, 2, 99, 0, []);
    var m := map[1 := g, 2 := a1, 4 := b2];
    OrphanWaits(m, g, a1, b2);
    var c := Chain(m, IndexOf(m, 2), Some(2));
    var m' := m[3 := b1];
    assert m'[1] == g && WeightAt(m', 1) == Some(0);
    assert m'[2] == a1 && WeightAt(m', 2) == Some(5);
    assert m'[3] == b1 && WeightAt(m', 3) == Some(1);
    assert m'[4] == b2 && WeightAt(m', 4) == Some(100);
    assert 4 in m' && Complete(m', 4);
  }

  lemma OrphanWaits(m: Blocks, g: RootBlock, a1: RootBlock, b2: RootBlock)
    requires g == RootBlock(1, ZERO, 0, 0, 0, []) && a1 == RootBlock(2, 1, 1, 5, 0, []) && b2 == RootBlock(4, 3, 2, 99, 0, [])
    requires m == map[1 := g, 2 := a1, 4 := b2]
    ensures var c := Chain(m, IndexOf(m, 2), Some(2)); Canonical(c) && Heaviest(c)
  {
    assert Linked(m);
    assert m[1] == g && WeightAt(m, 1) == Some(0);
    assert m[2] == a1 && WeightAt(m, 2) == Some(5);
    assert m[4] == b2 && WeightAt(m, 3) == None && WeightAt(m, 4) == None;
  }

  // ------------------------------------------------------------------ whole runs

  ghost predicate Deliverable(c: Chain, run: seq<RootBlock>)
    decreases |run|
  {
    run == [] || (Admissible(c.blocks, run[0]) && Deliverable(PutBlock(c, run[0]), run[1..]))
  }

  ghost function Deliver(c: Chain, run: seq<RootBlock>): Chain
    requires Deliverable(c, run)
    decreases |run|
  {
    if run == [] then c else Deliver(PutBlock(c, run[0]), run[1..])
  }

  ghost function Filed(m: Blocks, run: seq<RootBlock>): Blocks
    decreases |run|
  {
    if run == [] then m else Filed(m[run[0].hash := run[0]], run[1..])
  }

  /** No stored block is waiting for a parent, so nothing new can complete a branch from below. */
  ghost predicate NoOrphans(m: Blocks) {
    forall h <- m :: m[h].prev == ZERO || m[h].prev in m
  }

  /** Each block comes after its parent. */
  ghost predicate ParentFirst(m: Blocks, run: seq<RootBlock>)
    decreases |run|
  {
    run == [] || (&& (run[0].prev == ZERO || run[0].prev in m) && run[0].prev != run[0].hash
                  && ParentFirst(m[run[0].hash := run[0]], run[1..]))
  }

  /**
   In every run, whatever the order, the height index is closed under parents and
   ends in the best tip; with parentless blocks at height zero it is the tip's
   exact ancestry.
   */
  lemma {:induction false} RunKeepsIndexed(c: Chain, run: seq<RootBlock>)
    requires Indexed(c) && Deliverable(c, run)
    ensures Indexed(Deliver(c, run))
    ensures Deliver(c, run).blocks == Filed(c.blocks, run)
    ensures RootsAtZero(Filed(c.blocks, run)) ==> Canonical(Deliver(c, run))
    decreases |run|
  {
    if run != [] {
      PutKeepsIndexed(c, run[0]);
      RunKeepsIndexed(PutBlock(c, run[0]), run[1..]);
    } else if RootsAtZero(c.blocks) {
      RootedAtZeroIsCanonical(c);
    }
  }

  /** In every run that delivers parents first, the best tip is a heaviest chain. */
  lemma {:induction false} ParentFirstRunIsHeaviest(c: Chain, run: seq<RootBlock>)
    requires Indexed(c) && Heaviest(c) && NoOrphans(c.blocks)
    requires Deliverable(c, run) && ParentFirst(c.blocks, run)
    ensures Linked(Deliver(c, run).blocks) && Heaviest(Deliver(c, run)) && NoOrphans(Deliver(c, run).blocks)
    decreases |run|
  {
    if run != [] {
      var b := run[0];
      PutKeepsIndexed(c, b);
      PutKeepsHeaviest(c, b);
      ParentFirstRunIsHeaviest(PutBlock(c, b), run[1..]);
    }
  }

  lemma {:induction false} NoOrphansIsComplete(m: Blocks, h: Hash)
    requires Linked(m) && NoOrphans(m) && h in m
    ensures Complete(m, h)
    decreases Rank(m, h)
  {
    if m[h].prev != ZERO {
      NoOrphansIsComplete(m, m[h].prev);
    }
  }

  /**
   Convergence: two nodes that end up with the same blocks, each delivered
   parents first but in any order, sit on equally heavy tips; when no other
   block is that heavy they agree on the tip and, with parentless blocks at
   height zero, on the whole height index.
   */
  lemma NodesConverge(run: seq<RootBlock>, run': seq<RootBlock>)
    requires Deliverable(EMPTY, run) && Deliverable(EMPTY, run')
    requires ParentFirst(map[], run) && ParentFirst(map[], run')
    requires Filed(map[], run) == Filed(map[], run')
    ensures var c, c', m := Deliver(EMPTY, run), Deliver(EMPTY, run'), Filed(map[], run);
            && Linked(m)
            && c.tip.Some? == c'.tip.Some? == (run != [])
            && (c.tip.Some? ==>
                  && Weight(m, c.tip.value) == Weight(m, c'.tip.value)
                  && ((forall h <- m :: h != c.tip.value ==> Weight(m, h) < Weight(m, c.tip.value)) ==>
                        c.tip == c'.tip && (RootsAtZero(m) ==> c == c')))
  {
    EndsHeaviest(run);
    EndsHeaviest(run');
    RunKeepsIndexed(EMPTY, run);
    RunKeepsIndexed(EMPTY, run');
  }

  /** A parents-first run from nothing ends on a block no stored block outweighs. */
  lemma EndsHeaviest(run: seq<RootBlock>)
    requires Deliverable(EMPTY, run) && ParentFirst(map[], run)
    ensures var c, m := Deliver(EMPTY, run), Filed(map[], run);
            && Linked(m) && c.blocks == m && c.tip.Some? == (run != [])
            && (c.tip.Some? ==> c.tip.value in m && forall h <- m :: Weight(m, h) <= Weight(m, c.tip.value))
  {
    RunKeepsIndexed(EMPTY, run);
    ParentFirstRunIsHeaviest(EMPTY, run);
    FiledHasHead(map[], run);
    var m := Filed(map[], run);
    forall h <- m
      ensures Complete(m, h)
    {
      NoOrphansIsComplete(m, h);
    }
  }

  lemma {:induction false} FiledHasHead(m: Blocks, run: seq<RootBlock>)
    ensures forall h <- m :: h in Filed(m, run)
    ensures run != [] ==> run[0].hash in Filed(m, run)
    ensures run == [] ==> Filed(m, run) == m
    decreases |run|
  {
    if run != [] {
      FiledHasHead(m[run[0].hash := run[0]], run[1..]);
    }
  }
}

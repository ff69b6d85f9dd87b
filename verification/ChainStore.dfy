/**
 The persistent chain store: block tree, canonical height index, best tip and
 the weight memo, updated in place (src/storage/chain.rs). Each method is proved
 against the value-level functions of ChainModel and ForkChoice.
 */
module ChainStoreModule {
  import opened Wrappers
  import opened ChainModel
  import opened ForkChoice
  import opened ForkTips
  import opened Locator
  import opened HeightGap

  /** `ch` lists the ancestors of `top`, highest first, down to but excluding `stop`. */
  ghost predicate IsBranch(m: Blocks, top: Hash, stop: Hash, ch: seq<(nat, Hash)>) {
    && (forall i | 0 <= i < |ch| :: ch[i].1 in m && ch[i].0 == m[ch[i].1].height)
    && (forall i | 0 < i < |ch| :: m[ch[i - 1].1].prev == ch[i].1)
    && (if ch == [] then stop == top else ch[0].1 == top && m[ch[|ch| - 1].1].prev == stop)
  }

  lemma {:induction false} BranchHeights(m: Blocks, top: Hash, stop: Hash, ch: seq<(nat, Hash)>)
    requires Linked(m) && IsBranch(m, top, stop, ch) && top in m
    ensures |ch| <= m[top].height + 1
    ensures forall i | 0 <= i < |ch| :: ch[i].0 == m[top].height - i
    decreases |ch|
  {
    if |ch| > 1 {
      BranchHeights(m, ch[1].1, stop, ch[1..]);
    }
  }

  /** Along a branch the index is the branch's own entries; below it, the index of where the branch stops. */
  lemma {:induction false} BranchEntries(m: Blocks, top: Hash, stop: Hash, ch: seq<(nat, Hash)>, k: nat)
    requires Linked(m) && IsBranch(m, top, stop, ch) && top in m
    ensures m[top].height - |ch| < k <= m[top].height ==> k in IndexOf(m, top) && IndexOf(m, top)[k] == ch[m[top].height - k].1
    ensures k <= m[top].height - |ch| ==> (k in IndexOf(m, top) <==> k in IndexOf(m, stop))
    ensures k <= m[top].height - |ch| && k in IndexOf(m, top) ==> IndexOf(m, top)[k] == IndexOf(m, stop)[k]
    decreases |ch|
  {
    BranchHeights(m, top, stop, ch);
    if |ch| > 1 {
      BranchEntries(m, ch[1].1, stop, ch[1..], k);
    }
  }

  /** `now` is `was` with the branch written over the heights down from `top`, and nothing above. */
  ghost predicate Overwritten(was: map<nat, Hash>, now: map<nat, Hash>, ch: seq<(nat, Hash)>, top: nat, i: nat) {
    && i <= |ch| && i <= top + 1
    && (forall k <- now :: k <= top)
    && (forall k: nat | top - i < k <= top :: k in now && now[k] == ch[top - k].1)
    && (forall k: nat | k <= top - i :: (k in now <==> k in was) && (k in was ==> now[k] == was[k]))
  }

  /** Writing a whole branch over a closed index rebases it on the branch's top. */
  lemma BranchIsRebase(c: Chain, top: Hash, stop: Hash, ch: seq<(nat, Hash)>, now: map<nat, Hash>)
    requires Linked(c.blocks) && Closed(c.blocks, c.index) && top in c.blocks
    requires IsBranch(c.blocks, top, stop, ch) && (stop == ZERO || OnChain(c, stop))
    requires Overwritten(c.index, now, ch, c.blocks[top].height, |ch|)
    ensures now == Rebase(c.index, c.blocks, top)
  {
    var m := c.blocks;
    var then_ := Rebase(c.index, m, top);
    IndexDomain(m, top);
    BaseIsLow(m, top);
    forall k: nat
      ensures k in now <==> k in then_
      ensures k in now ==> now[k] == then_[k]
    {
      if k <= m[top].height {
        BranchIsRebaseAt(c, top, stop, ch, now, k);
      }
    }
    assert now.Keys == then_.Keys;
  }

  lemma BranchIsRebaseAt(c: Chain, top: Hash, stop: Hash, ch: seq<(nat, Hash)>, now: map<nat, Hash>, k: nat)
    requires Linked(c.blocks) && Closed(c.blocks, c.index) && top in c.blocks
    requires IsBranch(c.blocks, top, stop, ch) && (stop == ZERO || OnChain(c, stop))
    requires Overwritten(c.index, now, ch, c.blocks[top].height, |ch|) && k <= c.blocks[top].height
    ensures k in now <==> k in Rebase(c.index, c.blocks, top)
    ensures k in now ==> now[k] == Rebase(c.index, c.blocks, top)[k]
  {
    var m := c.blocks;
    IndexDomain(m, top);
    BranchEntries(m, top, stop, ch, k);
    if k <= m[top].height - |ch| {
      if stop != ZERO {
        ClosedIsAncestry(m, c.index, m[stop].height);
      } else {
        assert IndexOf(m, ZERO) == map[];
      }
    }
  }

  /** `gone` lists, once each, the blocks at heights [lo, hi) that `was` indexes and `now` does not. */
  ghost predicate Displaced(m: Blocks, was: map<nat, Hash>, now: map<nat, Hash>, lo: int, hi: int, gone: seq<Hash>) {
    && (forall i | 0 <= i < |gone| :: gone[i] in m && lo <= m[gone[i]].height < hi && m[gone[i]].height in was
                                      && was[m[gone[i]].height] == gone[i]
                                      && !(m[gone[i]].height in now && now[m[gone[i]].height] == gone[i]))
    && (forall k <- was | lo <= k < hi :: (k in now && now[k] == was[k]) || was[k] in gone)
    && (forall i, j | 0 <= i < j < |gone| :: gone[i] != gone[j])
  }

  lemma OneWritten(was: map<nat, Hash>, now: map<nat, Hash>, ch: seq<(nat, Hash)>, top: nat, i: nat)
    requires Overwritten(was, now, ch, top, i) && i < |ch| <= top + 1 && ch[i].0 == top - i
    ensures Overwritten(was, now[ch[i].0 := ch[i].1], ch, top, i + 1)
  {
  }

  lemma OneDisplaced(m: Blocks, was: map<nat, Hash>, now: map<nat, Hash>, k: nat, hi: nat, gone: seq<Hash>, hash: Hash)
    requires Displaced(m, was, now, k + 1, hi, gone) && k < hi && (k in now <==> k in was) && (k in was ==> now[k] == was[k])
    requires k in was ==> was[k] in m && m[was[k]].height == k
    ensures Displaced(m, was, now[k := hash], k, hi, if k in now && now[k] != hash then gone + [now[k]] else gone)
  {
  }

  /** What was displaced is exactly what was canonical and no longer is. */
  lemma DisplacedIsExact(c: Chain, now: map<nat, Hash>, tip: Option<Hash>, ch: seq<(nat, Hash)>, top: nat, end: nat, gone: seq<Hash>)
    requires forall k <- c.index :: k < end && c.index[k] in c.blocks && c.blocks[c.index[k]].height == k
    requires Overwritten(c.index, now, ch, top, |ch|) && Displaced(c.blocks, c.index, now, top - |ch| + 1, end, gone)
    ensures forall h :: h in gone <==> OnChain(c, h) && !OnChain(Chain(c.blocks, now, tip), h)
  {
  }

  /** What a rebased index is good for. */
  lemma Rebased(c: Chain, h: Hash)
    requires Indexed(c) && Complete(c.blocks, h)
    ensures var now := Rebase(c.index, c.blocks, h);
            && (Weight(c.blocks, h) >= TipWeight(c) ==> Indexed(Chain(c.blocks, now, Some(h))))
            && (RootsAtZero(c.blocks) ==> now == IndexOf(c.blocks, h))
  {
    if Weight(c.blocks, h) >= TipWeight(c) {
      RebasedIsIndexed(c, h);
    }
    if RootsAtZero(c.blocks) {
      RebasedIsAncestry(c, h);
    }
  }

  lemma RebasedIsIndexed(c: Chain, h: Hash)
    requires Indexed(c) && Complete(c.blocks, h) && Weight(c.blocks, h) >= TipWeight(c)
    ensures Indexed(Chain(c.blocks, Rebase(c.index, c.blocks, h), Some(h)))
  {
    var m := c.blocks;
    var now := Rebase(c.index, m, h);
    RebaseIsClosed(m, c.index, h);
    IndexDomain(m, h);
    forall k <- now
      ensures Weight(m, now[k]) <= Weight(m, h)
    {
      if k in IndexOf(m, h) {
        OnChainIsLighter(m, h, k);
      }
    }
  }

  lemma RebasedIsAncestry(c: Chain, h: Hash)
    requires Linked(c.blocks) && Complete(c.blocks, h) && RootsAtZero(c.blocks)
    ensures Rebase(c.index, c.blocks, h) == IndexOf(c.blocks, h)
  {
    IndexDomain(c.blocks, h);
    BaseIsLow(c.blocks, h);
    assert UpTo(c.index, Base(c.blocks, h) - 1) == map[];
  }

  /** The whole rewrite: truncating, then writing the branch and listing what it displaces. */
  lemma ReorgIs(c: Chain, b: RootBlock, stop: Hash, ch: seq<(nat, Hash)>, now: map<nat, Hash>, end: nat, gone: seq<Hash>)
    requires Indexed(c) && b.hash in c.blocks && c.blocks[b.hash] == b && Complete(c.blocks, b.hash)
    requires IsBranch(c.blocks, b.hash, stop, ch) && (stop == ZERO || OnChain(c, stop))
    requires forall k <- c.index :: k < end
    requires Overwritten(c.index, now, ch, b.height, |ch|) && Displaced(c.blocks, c.index, now, b.height - |ch| + 1, end, gone)
    ensures now == Rebase(c.index, c.blocks, b.hash)
    ensures Weight(c.blocks, b.hash) >= TipWeight(c) ==> Indexed(Chain(c.blocks, now, Some(b.hash)))
    ensures RootsAtZero(c.blocks) ==> now == IndexOf(c.blocks, b.hash)
    ensures forall h :: h in gone <==> OnChain(c, h) && !OnChain(Chain(c.blocks, now, Some(b.hash)), h)
  {
    assert forall k <- c.index :: OnParent(c.blocks, c.index, k);
    DisplacedIsExact(c, now, Some(b.hash), ch, b.height, end, gone);
    BranchIsRebase(c, b.hash, stop, ch, now);
    Rebased(c, b.hash);
  }

  lemma ChildIndexFits(before: Blocks, m: Blocks, was: map<nat, Hash>, b: RootBlock)
    requires Closed(before, was) && b.hash !in before && m == before[b.hash := b]
    ensures forall k <- was :: was[k] in m && m[was[k]].height == k
  {
    assert forall k <- was :: OnParent(before, was, k);
  }

  /** The same rewrite for a single block on a canonical parent, whatever height it claims. */
  lemma ChildReorgIs(before: Blocks, m: Blocks, was: map<nat, Hash>, now: map<nat, Hash>, b: RootBlock, tip: Option<Hash>, end: nat,
                     gone: seq<Hash>)
    requires Closed(before, was) && NewChild(Chain(before, was, None), b) && m == before[b.hash := b] && forall k <- was :: k < end
    requires Overwritten(was, now, [(b.height, b.hash)], b.height, 1) && Displaced(m, was, now, b.height, end, gone)
    ensures now == WithChild(was, b) && (Closed(m, now) <==> b.height == m[b.prev].height + 1)
    ensures forall h :: h in gone <==> OnChain(Chain(m, was, None), h) && !OnChain(Chain(m, now, tip), h)
  {
    ChildIndexFits(before, m, was, b);
    DisplacedIsExact(Chain(m, was, None), now, tip, [(b.height, b.hash)], b.height, end, gone);
    assert now == WithChild(was, b);
    ChildStaysClosedIff(Chain(before, was, None), b);
  }

  /** Where the back-off stands: after `e` doublings the stride is 2^(e+1), and each height is a stride below the last. */
  ghost predicate Paced(height: nat, low: nat, step: nat, top: nat, e: nat) {
    && step == Pow2(e + 1) && Pow2(e) <= top + 1 && height <= low <= top
    && (height > 0 ==> height == top - step - 1)
    && (low == 0 || 2 * low <= 2 * top - step - 2)
    && (height == 0 ==> low == 0 || top <= step + 1)
  }

  lemma PaceOn(height: nat, low: nat, step: nat, top: nat, e: nat)
    requires Paced(height, low, step, top, e) && height > 0
    ensures height < low ==> top - height <= 2 * (top - low + 1)
    ensures Paced(if height <= step then 0 else height - step, height, 2 * step, top, e + 1)
  {
    assert Pow2(e + 2) == 2 * Pow2(e + 1);
  }

  class ChainStore {
    var rootBlocks: Blocks
    var heightIndex: map<nat, Hash>
    var bestTip: Option<Hash>
    var weightCache: map<Hash, nat>

    ghost function Abs(): Chain
      reads this
    {
      Chain(rootBlocks, heightIndex, bestTip)
    }

    /** The memo only ever holds true weights of stored blocks. */
    ghost predicate MemoIsTrue()
      requires Linked(rootBlocks)
      reads this
    {
      forall h <- weightCache :: h in rootBlocks && WeightAt(rootBlocks, h) == Some(weightCache[h])
    }

    /** Index, tip and memo all agree with the stored blocks. */
    ghost predicate Coherent()
      reads this
    {
      Indexed(Abs()) && MemoIsTrue()
    }

    ghost predicate Valid()
      reads this
    {
      Coherent() && Rooted(Abs())
    }

    ghost predicate Stored(b: RootBlock)
      reads this
    {
      b.hash in rootBlocks && rootBlocks[b.hash] == b
    }

    constructor ()
      ensures Valid() && Abs() == EMPTY && weightCache == map[]
    {
      rootBlocks, heightIndex, bestTip, weightCache := map[], map[], None, map[];
    }

    /** The memoized walk returns the plain sum over the ancestry, and None exactly when an ancestor is missing. */
    method ChainWeight(b: RootBlock) returns (r: Option<nat>)
      requires Linked(rootBlocks) && MemoIsTrue() && Stored(b)
      modifies this`weightCache
      ensures MemoIsTrue()
      ensures r == WeightAt(rootBlocks, b.hash)
      ensures r.Some? ==> b.hash in weightCache
      ensures forall h <- old(weightCache) :: h in weightCache
    {
      if b.hash in weightCache {
        return Some(weightCache[b.hash]);
      }
      var suffix: seq<(Hash, nat)> := [(b.hash, b.totalPow)];
      var prev, base := b.prev, 0;
      ghost var m := rootBlocks;
      while prev != ZERO
        invariant base == 0 && suffix != [] && suffix[0] == (b.hash, b.totalPow)
        invariant forall i | 0 <= i < |suffix| :: suffix[i].0 in m && m[suffix[i].0].totalPow == suffix[i].1
        invariant forall i | 0 < i < |suffix| :: m[suffix[i - 1].0].prev == suffix[i].0
        invariant m[suffix[|suffix| - 1].0].prev == prev
        invariant WeightAt(m, prev).None? ==> WeightAt(m, b.hash).None?
        decreases Rank(m, prev)
      {
        if prev in weightCache {
          base := weightCache[prev];
          break;
        }
        if prev !in rootBlocks {
          return None;
        }
        var parent := rootBlocks[prev];
        suffix := suffix + [(parent.hash, parent.totalPow)];
        prev := parent.prev;
      }
      var acc := base;
      for i := |suffix| downto 0
        invariant WeightAt(m, if i == |suffix| then prev else suffix[i].0) == Some(acc)
        invariant MemoIsTrue()
        invariant i < |suffix| ==> suffix[i].0 in weightCache
        invariant forall h <- old(weightCache) :: h in weightCache
      {
        acc := SaturatingAdd(acc, suffix[i].1);
        weightCache := weightCache[suffix[i].0 := acc];
      }
      return Some(acc);
    }

    /** The greatest indexed height. */
    method LatestHeight() returns (r: Option<nat>)
      ensures r.None? <==> heightIndex == map[]
      ensures r.Some? ==> r.value in heightIndex && forall k <- heightIndex :: k <= r.value
    {
      var keys := heightIndex.Keys;
      r := None;
      while keys != {}
        invariant keys <= heightIndex.Keys
        invariant r.None? <==> keys == heightIndex.Keys
        invariant r.Some? ==> r.value in heightIndex
        invariant r.Some? ==> forall k <- heightIndex :: k in keys || k <= r.value
        decreases keys
      {
        var k :| k in keys;
        keys := keys - {k};
        r := if r.None? || k > r.value then Some(k) else r;
      }
    }

    /** The comparison with the best tip, on any store: also one whose tip is missing or has a gap below it. */
    method IsHeavierThanBestTip(b: RootBlock) returns (heavier: bool)
      requires Linked(rootBlocks) && MemoIsTrue() && Stored(b)
      modifies this`weightCache
      ensures MemoIsTrue()
      ensures heavier == Heavier(rootBlocks, bestTip, b)
    {
      if bestTip.None? || bestTip.value !in rootBlocks {
        return true;
      }
      var tip := rootBlocks[bestTip.value];
      if b.height == tip.height + 1 && b.prev == tip.hash {
        return true;
      }
      var bw := ChainWeight(b);
      var tw := ChainWeight(tip);
      match (bw, tw) {
        case (Some(x), Some(y)) => heavier := x > y;
        case (None, _) => heavier := false;
        case (Some(_), None) => heavier := b.cumulativePow > tip.cumulativePow;
      }
    }

    /** The ancestry of `newTip` down to a canonical block or a genesis; None when a parent is missing. */
    method NewBranch(newTip: RootBlock) returns (branch: Option<seq<(nat, Hash)>>, ghost stop: Hash)
      requires Coherent() && Stored(newTip)
      ensures branch.None? <==> !Complete(rootBlocks, newTip.hash)
      ensures branch.Some? ==> IsBranch(rootBlocks, newTip.hash, stop, branch.value)
      ensures branch.Some? ==> stop == ZERO || OnChain(Abs(), stop)
    {
      var newChain: seq<(nat, Hash)> := [];
      var cursor := newTip;
      ghost var m := rootBlocks;
      while true
        invariant Stored(cursor)
        invariant IsBranch(m, newTip.hash, cursor.hash, newChain)
        invariant Complete(m, newTip.hash) <==> Complete(m, cursor.hash)
        decreases cursor.height
      {
        if cursor.height in heightIndex && heightIndex[cursor.height] == cursor.hash {
          ClosedIsAncestry(m, heightIndex, cursor.height);
          return Some(newChain), cursor.hash;
        }
        newChain := newChain + [(cursor.height, cursor.hash)];
        assert Complete(m, cursor.hash) <==> WeightAt(m, cursor.prev).Some?;
        if cursor.prev == ZERO {
          return Some(newChain), ZERO;
        }
        if cursor.prev !in rootBlocks {
          return None, ZERO;
        }
        cursor := rootBlocks[cursor.prev];
      }
    }

    /** Drops every index entry above `top`, listing what was there. */
    method Truncate(ghost m: Blocks, top: nat) returns (orphaned: seq<Hash>, ghost end: nat)
      requires forall k <- heightIndex :: heightIndex[k] in m && m[heightIndex[k]].height == k
      modifies this`heightIndex
      ensures heightIndex == UpTo(old(heightIndex), top)
      ensures end > top && (forall k <- old(heightIndex) :: k < end)
      ensures Displaced(m, old(heightIndex), heightIndex, top + 1, end, orphaned)
    {
      orphaned := [];
      var latest := LatestHeight();
      var oldHeight := if latest.None? then 0 else latest.value;
      end := if oldHeight > top then oldHeight + 1 else top + 1;
      var height := top + 1;
      while height <= oldHeight
        invariant top < height <= end
        invariant forall k: nat :: k in heightIndex <==> k in old(heightIndex) && !(top < k < height)
        invariant forall k <- heightIndex :: heightIndex[k] == old(heightIndex)[k]
        invariant Displaced(m, old(heightIndex), heightIndex, top + 1, height, orphaned)
      {
        if height in heightIndex {
          orphaned := orphaned + [heightIndex[height]];
          heightIndex := heightIndex - {height};
        }
        height := height + 1;
      }
    }

    /** Writes the new branch into the index, adding the blocks it displaces to `orphaned`. */
    method Reassign(ghost m: Blocks, ghost was: map<nat, Hash>, ghost top: nat, ghost end: nat,
                    newChain: seq<(nat, Hash)>, above: seq<Hash>) returns (orphaned: seq<Hash>)
      requires |newChain| <= top + 1 && forall i | 0 <= i < |newChain| :: newChain[i].0 == top - i
      requires forall k <- was :: was[k] in m && m[was[k]].height == k
      requires heightIndex == UpTo(was, top) && end > top
      requires Displaced(m, was, heightIndex, top + 1, end, above)
      modifies this`heightIndex
      ensures Overwritten(was, heightIndex, newChain, top, |newChain|)
      ensures Displaced(m, was, heightIndex, top - |newChain| + 1, end, orphaned)
    {
      orphaned := above;
      for i := 0 to |newChain|
        invariant Overwritten(was, heightIndex, newChain, top, i)
        invariant Displaced(m, was, heightIndex, top - i + 1, end, orphaned)
      {
        var height, hash := newChain[i].0, newChain[i].1;
        OneWritten(was, heightIndex, newChain, top, i);
        OneDisplaced(m, was, heightIndex, height, end, orphaned, hash);
        if height in heightIndex && heightIndex[height] != hash {
          orphaned := orphaned + [heightIndex[height]];
        }
        heightIndex := heightIndex[height := hash];
      }
    }

    /**
     Makes `newTip` the canonical tip. Either its ancestry is incomplete and
     nothing changes, or the height index is rebased on that ancestry and the
     result lists, once each, the blocks that stopped being canonical. With
     parentless blocks at height zero the index is then exactly the ancestry.
     */
    method MakeCanonical(newTip: RootBlock) returns (r: Option<seq<Hash>>)
      requires Coherent() && Stored(newTip)
      modifies this`heightIndex, this`bestTip
      ensures r.None? <==> !Complete(rootBlocks, newTip.hash)
      ensures r.None? ==> Abs() == old(Abs())
      ensures r.Some? ==> Abs() == Chain(rootBlocks, Rebase(old(heightIndex), rootBlocks, newTip.hash), Some(newTip.hash))
      ensures r.Some? && Weight(rootBlocks, newTip.hash) >= TipWeight(old(Abs())) ==> Coherent()
      ensures r.Some? && RootsAtZero(rootBlocks) ==> heightIndex == IndexOf(rootBlocks, newTip.hash)
      ensures r.Some? ==> forall h :: h in r.value <==> OnChain(old(Abs()), h) && !OnChain(Abs(), h)
      ensures r.Some? ==> forall i, j | 0 <= i < j < |r.value| :: r.value[i] != r.value[j]
    {
      var branch, stop := NewBranch(newTip);
      if branch.None? {
        return None;
      }
      ghost var m, was := rootBlocks, heightIndex;
      OldIndexFacts();
      BranchHeights(m, newTip.hash, stop, branch.value);
      var above, end := Truncate(m, newTip.height);
      var orphaned := Reassign(m, was, newTip.height, end, branch.value, above);
      bestTip := Some(newTip.hash);
      ReorgIs(old(Abs()), newTip, stop, branch.value, heightIndex, end, orphaned);
      r := Some(orphaned);
    }

    /**
     The same for a block of any height whose parent is canonical, where the walk
     ends after one step. The index stays closed under parents if and only if the
     block's height is one above its parent's.
     */
    method MakeChildCanonical(b: RootBlock, ghost before: Blocks) returns (orphaned: seq<Hash>)
      requires Closed(before, heightIndex) && NewChild(Chain(before, heightIndex, bestTip), b) && rootBlocks == before[b.hash := b]
      modifies this`heightIndex, this`bestTip
      ensures Abs() == Chain(rootBlocks, WithChild(old(heightIndex), b), Some(b.hash))
      ensures Closed(rootBlocks, heightIndex) <==> b.height == rootBlocks[b.prev].height + 1
      ensures forall h :: h in orphaned <==> OnChain(Chain(rootBlocks, old(heightIndex), None), h) && !OnChain(Abs(), h)
    {
      ghost var was := heightIndex;
      ChildIndexFits(before, rootBlocks, was, b);
      var newChain := [(b.height, b.hash)];
      var above, end := Truncate(rootBlocks, b.height);
      orphaned := Reassign(rootBlocks, was, b.height, end, newChain, above);
      bestTip := Some(b.hash);
      ChildReorgIs(before, rootBlocks, was, heightIndex, b, bestTip, end, orphaned);
    }

    /** Files a block; the memo, the index and the tip stay right. */
    method PutRootBlock(b: RootBlock)
      requires Coherent() && Admissible(rootBlocks, b)
      modifies this`rootBlocks
      ensures rootBlocks == old(rootBlocks)[b.hash := b]
      ensures Coherent() && bestTip == old(bestTip)
    {
      ghost var m := rootBlocks;
      rootBlocks := rootBlocks[b.hash := b];
      IndexedGrows(old(Abs()), rootBlocks);
      forall h <- weightCache
        ensures h in rootBlocks && WeightAt(rootBlocks, h) == Some(weightCache[h])
      {
        WeightStable(m, rootBlocks, h);
      }
    }

    /** Files a block and switches to it when its chain is heavier; reports every block that lost its canonical place. */
    method PutRootBlockWithForkResolution(b: RootBlock) returns (isNewTip: bool, displaced: seq<Hash>)
      requires Valid() && Admissible(rootBlocks, b)
      modifies this
      ensures Valid() && Abs() == PutBlock(old(Abs()), b)
      ensures isNewTip <==> Adopts(old(Abs()), b)
      ensures forall h :: h in displaced <==> OnChain(old(Abs()), h) && !OnChain(Abs(), h)
      ensures forall i, j | 0 <= i < j < |displaced| :: displaced[i] != displaced[j]
    {
      PutKeepsRooted(Abs(), b);
      TipAfterPut(Abs(), b);
      IndexedGrows(Abs(), rootBlocks[b.hash := b]);
      OldIndexFacts();
      PutRootBlock(b);
      ghost var filed := Abs();
      assert forall h :: OnChain(filed, h) <==> OnChain(old(Abs()), h);
      displaced, isNewTip := [], false;
      var heavier := IsHeavierThanBestTip(b);
      if heavier {
        var orphaned := MakeCanonical(b);
        if orphaned.Some? {
          displaced, isNewTip := orphaned.value, true;
        }
      }
    }

    /** The ends of the branches held but not adopted, highest first, at most six of them. */
    method ForkBranchTips() returns (tips: seq<Hash>)
      ensures IsForkTips(Abs(), tips)
    {
      var leaves := CollectLeaves(rootBlocks, heightIndex, Abs());
      tips := FirstInOrder(rootBlocks, leaves, MAX_FORK_LOCATOR_TIPS);
    }

    /** The heaviest fully linked branch end in the list that outweighs the best tip. */
    method HeaviestAdoptableForkTip() returns (best: Option<RootBlock>, ghost tips: seq<Hash>)
      requires Valid()
      modifies this`weightCache
      ensures Valid() && IsForkTips(Abs(), tips)
      ensures best.None? <==> forall t <- tips :: Complete(rootBlocks, t) ==> Weight(rootBlocks, t) <= TipWeight(Abs())
      ensures best.Some? ==> Stored(best.value) && best.value.hash in tips && Complete(rootBlocks, best.value.hash)
      ensures best.Some? ==> Weight(rootBlocks, best.value.hash) > TipWeight(Abs())
      ensures best.Some? ==>
                forall t <- tips :: Complete(rootBlocks, t) ==> Weight(rootBlocks, t) <= Weight(rootBlocks, best.value.hash)
    {
      var ours := 0;
      if bestTip.Some? {
        var w := ChainWeight(rootBlocks[bestTip.value]);
        ours := if w.Some? then w.value else 0;
      }
      var list := ForkBranchTips();
      tips := list;
      assert forall i | 0 <= i < |list| :: list[i] in Leaves(Abs());
      best := HeaviestOf(list, ours);
    }

    /** The first heaviest fully linked block of the list that weighs more than `ours`. */
    method HeaviestOf(list: seq<Hash>, ours: nat) returns (best: Option<RootBlock>)
      requires Coherent() && forall i | 0 <= i < |list| :: list[i] in rootBlocks
      modifies this`weightCache
      ensures Coherent()
      ensures best.None? ==> forall t <- list :: Complete(rootBlocks, t) ==> Weight(rootBlocks, t) <= ours
      ensures best.Some? ==> Stored(best.value) && best.value.hash in list && Complete(rootBlocks, best.value.hash)
      ensures best.Some? ==> Weight(rootBlocks, best.value.hash) > ours
      ensures best.Some? ==>
                forall t <- list :: Complete(rootBlocks, t) ==> Weight(rootBlocks, t) <= Weight(rootBlocks, best.value.hash)
    {
      best := None;
      ghost var m := rootBlocks;
      var bestWeight := ours;
      for i := 0 to |list|
        invariant Coherent()
        invariant best.None? ==> bestWeight == ours
        invariant best.Some? ==> Stored(best.value) && best.value.hash in list && bestWeight > ours
        invariant best.Some? ==> WeightAt(m, best.value.hash) == Some(bestWeight)
        invariant forall j | 0 <= j < i :: Complete(m, list[j]) ==> Weight(m, list[j]) <= bestWeight
      {
        var block := rootBlocks[list[i]];
        var weight := ChainWeight(block);
        if weight.Some? && weight.value > ours && (best.None? || weight.value > bestWeight) {
          best, bestWeight := Some(block), weight.value;
        }
      }
    }

    /**
     The periodic pass. Whatever order blocks came in and however many branch
     ends there are, the pass leaves the node on a heaviest chain if and only if
     no complete branch end beyond the listed ones outweighs the tip and the
     listed ones; with at most six branch ends there are none beyond.
     */
    method AdoptHeaviestFork() returns (reorged: bool, displaced: seq<Hash>, ghost tips: seq<Hash>)
      requires Valid()
      modifies this
      ensures Valid() && rootBlocks == old(rootBlocks) && IsForkTips(old(Abs()), tips)
      ensures TipWeight(Abs()) == ListedWeight(old(Abs()), tips)
      ensures Heaviest(Abs()) <==> UnlistedWithin(old(Abs()), tips, ListedWeight(old(Abs()), tips))
      ensures |Leaves(old(Abs()))| <= MAX_FORK_LOCATOR_TIPS ==> Heaviest(Abs())
      ensures reorged <==> ListedWeight(old(Abs()), tips) > TipWeight(old(Abs()))
      ensures !reorged ==> Abs() == old(Abs()) && displaced == []
      ensures forall h :: h in displaced <==> OnChain(old(Abs()), h) && !OnChain(Abs(), h)
    {
      var best;
      best, tips := HeaviestAdoptableForkTip();
      reorged, displaced := false, [];
      if |Leaves(Abs())| <= MAX_FORK_LOCATOR_TIPS {
        FewAreAllListed(Abs(), tips, ListedWeight(Abs(), tips));
      }
      if best.None? {
        StayingIsHeaviestIff(Abs(), tips);
        return;
      }
      AdoptingIsHeaviestIff(Abs(), tips, best.value);
      reorged, displaced := PutRootBlockWithForkResolution(best.value);
    }

    /** No height up to the tip's is without an entry. */
    ghost predicate Gapless()
      reads this
    {
      bestTip.Some? && bestTip.value in rootBlocks && forall k: nat | k <= rootBlocks[bestTip.value].height :: k in heightIndex
    }

    /** Parentless blocks at height zero leave no gap. */
    lemma RootsAtZeroIsGapless()
      requires Coherent() && bestTip.Some? && RootsAtZero(rootBlocks)
      ensures Gapless()
    {
      RootedAtZeroIsCanonical(Abs());
      IndexDomain(rootBlocks, bestTip.value);
      BaseIsLow(rootBlocks, bestTip.value);
    }

    /**
     Our three highest hashes, our branch ends, then hashes at exponentially spaced
     heights down to genesis: about log2 of the height of them. Heights without an
     entry are passed over. A chain that is only a genesis lists just that.
     */
    method GenerateLocator() returns (locator: seq<Hash>, ghost heights: seq<Option<nat>>, ghost tips: seq<Hash>)
      requires Coherent()
      ensures IsLocator(Abs(), locator, heights) && (bestTip.None? ==> locator == [])
      ensures bestTip.Some? ==> locator != [] && locator[0] == bestTip.value
      ensures bestTip.Some? && rootBlocks[bestTip.value].height > 0 ==> IsForkTips(Abs(), tips) && forall t <- tips :: t in locator
      ensures Gapless() ==> Laid(Abs(), locator, heights, tips)
      ensures Gapless() ==> forall f: nat | f <= rootBlocks[bestTip.value].height ::
                              Covers(heights, f, rootBlocks[bestTip.value].height)
      ensures bestTip.Some? ==> exists e: nat :: |locator| <= 10 + e && Pow2(e) <= rootBlocks[bestTip.value].height + 1
    {
      locator, heights, tips := [], [], [];
      var latest := LatestHeight();
      if latest.None? {
        assert bestTip.None?;
        return;
      }
      var top := latest.value;
      TipIsTop(top);
      if top == 0 {
        locator, heights := TopThree(top);
        assert |locator| <= 10 + 0 && Pow2(0) <= top + 1;
        return;
      }
      locator, heights, tips := LongLocator(top);
    }

    /** The locator of a chain with more than a genesis. */
    method LongLocator(top: nat) returns (locator: seq<Hash>, ghost heights: seq<Option<nat>>, ghost tips: seq<Hash>)
      requires Coherent() && bestTip.Some? && rootBlocks[bestTip.value].height == top > 0
      ensures IsLocator(Abs(), locator, heights) && locator != [] && locator[0] == bestTip.value
      ensures IsForkTips(Abs(), tips) && forall t <- tips :: t in locator
      ensures Gapless() ==> Laid(Abs(), locator, heights, tips) && forall f: nat | f <= top :: Covers(heights, f, top)
      ensures exists e: nat :: |locator| <= 10 + e && Pow2(e) <= top + 1
    {
      locator, heights := TopThree(top);
      ghost var low, hs0 := if top >= 2 then top - 2 else 0, heights;
      locator, heights, tips := AddForkTips(locator, heights);
      ghost var named, hs, e := locator, heights, 0;
      if Gapless() {
        CoversOn(hs0, hs, low, top);
      }
      locator, heights, e := BackOff(locator, heights, low, top);
      NamedStay(named, tips, locator);
      if Gapless() {
        LaidOut(named, hs, locator, heights, tips, top);
      }
      assert |locator| <= 10 + e;
    }

    lemma NamedStay(named: seq<Hash>, tips: seq<Hash>, locator: seq<Hash>)
      requires named <= locator && |tips| < |named| && named[|named| - |tips|..] == tips
      ensures locator[0] == named[0] && forall t <- tips :: t in locator
    {
      forall t <- tips
        ensures t in locator
      {
        var i :| 0 <= i < |tips| && tips[i] == t;
        assert locator[|named| - |tips| + i] == named[|named| - |tips|..][i];
      }
    }

    /** The greatest indexed height is the best tip's. */
    lemma TipIsTop(top: nat)
      requires Coherent() && top in heightIndex && forall k <- heightIndex :: k <= top
      ensures bestTip.Some? && bestTip.value in rootBlocks && rootBlocks[bestTip.value].height == top
      ensures heightIndex[top] == bestTip.value
    {
    }

    /** What covers a range goes on covering it as the list grows. */
    lemma CoversOn(hs: seq<Option<nat>>, heights: seq<Option<nat>>, low: nat, top: nat)
      requires hs <= heights && forall f: nat | low <= f <= top :: Covers(hs, f, top)
      ensures forall f: nat | low <= f <= top :: Covers(heights, f, top)
    {
      forall f: nat | low <= f <= top
        ensures Covers(heights, f, top)
      {
        assert Covers(hs, f, top);
        var i :| 0 <= i < |hs| && hs[i].Some? && hs[i].value <= f && top - hs[i].value <= 2 * (top - f);
        assert heights[i] == hs[i];
      }
    }

    lemma LaidOut(named: seq<Hash>, hs: seq<Option<nat>>, locator: seq<Hash>, heights: seq<Option<nat>>, tips: seq<Hash>, top: nat)
      requires bestTip.Some? && bestTip.value in rootBlocks && rootBlocks[bestTip.value].height == top
      requires |named| == |hs| == Highest(top) + |tips| && Backed(named, hs, locator, heights, 0)
      requires forall i | 0 <= i < Highest(top) :: hs[i] == Some(top - i)
      requires forall i | 0 <= i < |tips| :: named[Highest(top) + i] == tips[i] && hs[Highest(top) + i] == None
      ensures Laid(Abs(), locator, heights, tips)
    {
      var n := Highest(top);
      forall i | 0 <= i < n
        ensures heights[i] == Some(top - i)
      {
        assert heights[i] == hs[i];
      }
      forall i | 0 <= i < |tips|
        ensures locator[n + i] == tips[i] && heights[n + i] == None
      {
        assert locator[n + i] == named[n + i] && heights[n + i] == hs[n + i];
      }
    }

    /** The hashes of the three highest heights that have an entry. */
    method TopThree(top: nat) returns (locator: seq<Hash>, ghost heights: seq<Option<nat>>)
      requires top in heightIndex
      ensures IsLocator(Abs(), locator, heights) && 0 < |locator| <= Highest(top) && locator[0] == heightIndex[top]
      ensures forall i | 0 <= i < |heights| :: heights[i].Some? && heights[i].value >= (if top >= 2 then top - 2 else 0)
      ensures (forall k: nat | k <= top :: k in heightIndex) ==>
                && |locator| == Highest(top) && (forall i | 0 <= i < |heights| :: heights[i] == Some(top - i))
                && forall f: nat | (if top >= 2 then top - 2 else 0) <= f <= top :: Covers(heights, f, top)
    {
      ghost var low := if top >= 2 then top - 2 else 0;
      locator, heights := [heightIndex[top]], [Some(top)];
      if top >= 1 && top - 1 in heightIndex {
        locator, heights := locator + [heightIndex[top - 1]], heights + [Some(top - 1)];
      }
      if top >= 2 && top - 2 in heightIndex {
        locator, heights := locator + [heightIndex[top - 2]], heights + [Some(top - 2)];
      }
      if forall k: nat | k <= top :: k in heightIndex {
        forall f: nat | low <= f <= top
          ensures Covers(heights, f, top)
        {
          assert heights[top - f] == Some(f);
        }
      }
    }

    /** Appends every listed branch end; none is already there, since they are all off the canonical chain. */
    method AddForkTips(before: seq<Hash>, ghost hs: seq<Option<nat>>)
      returns (locator: seq<Hash>, ghost heights: seq<Option<nat>>, ghost ends: seq<Hash>)
      requires Coherent() && IsLocator(Abs(), before, hs) && forall i | 0 <= i < |hs| :: hs[i].Some?
      ensures IsForkTips(Abs(), ends) && IsLocator(Abs(), locator, heights)
      ensures locator == before + ends && heights == hs + seq(|ends|, _ => None)
    {
      locator, heights := before, hs;
      var tips := ForkBranchTips();
      ends := tips;
      for i := 0 to |tips|
        invariant IsLocator(Abs(), locator, heights)
        invariant locator == before + tips[..i] && heights == hs + seq(i, _ => None)
      {
        TipIsNew(before, hs, tips, i);
        if tips[i] !in locator {
          locator, heights := locator + [tips[i]], heights + [None];
        }
      }
    }

    lemma TipIsNew(before: seq<Hash>, hs: seq<Option<nat>>, tips: seq<Hash>, i: nat)
      requires Coherent() && IsLocator(Abs(), before, hs) && (forall j | 0 <= j < |hs| :: hs[j].Some?)
      requires IsForkTips(Abs(), tips) && i < |tips|
      ensures tips[i] !in before + tips[..i]
    {
      OldIndexFacts();
      assert tips[i] in Leaves(Abs());
    }

    /** `locator` continues `before` with canonical hashes only, from heights no lower than `low`. */
    ghost predicate Backed(before: seq<Hash>, hs: seq<Option<nat>>, locator: seq<Hash>, heights: seq<Option<nat>>, low: nat)
      reads this
    {
      && IsLocator(Abs(), locator, heights) && before <= locator && hs <= heights
      && (forall i | |hs| <= i < |heights| :: heights[i].Some?)
      && (forall i | 0 <= i < |heights| :: heights[i].Some? ==> heights[i].value >= low)
    }

    lemma BackedFurther(before: seq<Hash>, hs: seq<Option<nat>>, locator: seq<Hash>, heights: seq<Option<nat>>, low: nat, k: nat)
      requires Backed(before, hs, locator, heights, low) && k in heightIndex && k <= low
      ensures Backed(before, hs, locator + [heightIndex[k]], heights + [Some(k)], k)
    {
    }

    /** The list so far, and, when the index is full, that it covers every height from `low` up. */
    ghost predicate Reached(before: seq<Hash>, hs: seq<Option<nat>>, locator: seq<Hash>, heights: seq<Option<nat>>,
                            low: nat, top: nat, full: bool)
      reads this
    {
      Backed(before, hs, locator, heights, low) && (full ==> forall f: nat | low <= f <= top :: Covers(heights, f, top))
    }

    /** The exponential back-off, and genesis last. */
    method BackOff(before: seq<Hash>, ghost hs: seq<Option<nat>>, ghost start: nat, top: nat)
      returns (locator: seq<Hash>, ghost heights: seq<Option<nat>>, ghost e: nat)
      requires Coherent() && start == (if top >= 2 then top - 2 else 0)
      requires Backed(before, hs, before, hs, start)
      ensures Backed(before, hs, locator, heights, 0)
      ensures (forall k: nat | k <= top :: k in heightIndex) && (forall f: nat | start <= f <= top :: Covers(hs, f, top)) ==>
                forall f: nat | f <= top :: Covers(heights, f, top)
      ensures |locator| <= |before| + e + 1 && Pow2(e) <= top + 1
    {
      locator, heights, e := before, hs, 0;
      ghost var full := (forall k: nat | k <= top :: k in heightIndex) && (forall f: nat | start <= f <= top :: Covers(hs, f, top));
      ghost var low := start;
      var height: nat := if top >= 3 then top - 3 else 0;
      var step: nat := 2;
      assert Pow2(1) == 2 * Pow2(0);
      while height > 0
        invariant Paced(height, low, step, top, e) && |locator| <= |before| + e
        invariant Reached(before, hs, locator, heights, low, top, full)
        decreases height
      {
        PaceOn(height, low, step, top, e);
        locator, heights := AddHeight(before, hs, locator, heights, low, height, top, full);
        low, e := height, e + 1;
        height := if height <= step then 0 else height - step;
        step := 2 * step;
      }
      locator, heights := AddGenesis(before, hs, locator, heights, low, top, full);
    }

    /** The next height down, if it has an entry. */
    method AddHeight(ghost before: seq<Hash>, ghost hs: seq<Option<nat>>, some: seq<Hash>, ghost ks: seq<Option<nat>>,
                     ghost low: nat, height: nat, ghost top: nat, ghost full: bool)
      returns (locator: seq<Hash>, ghost heights: seq<Option<nat>>)
      requires height <= low <= top && (height < low ==> top - height <= 2 * (top - low + 1))
      requires Reached(before, hs, some, ks, low, top, full) && (full ==> height in heightIndex)
      ensures Reached(before, hs, locator, heights, height, top, full) && |locator| <= |some| + 1
    {
      locator, heights := some, ks;
      if full {
        ExtendCover(heights, low, height, top);
      }
      if height in heightIndex {
        BackedFurther(before, hs, locator, heights, low, height);
        locator, heights := locator + [heightIndex[height]], heights + [Some(height)];
      }
    }

    /** Genesis last, unless it ends the list already. */
    method AddGenesis(ghost before: seq<Hash>, ghost hs: seq<Option<nat>>, some: seq<Hash>, ghost ks: seq<Option<nat>>,
                      ghost low: nat, ghost top: nat, ghost full: bool)
      returns (locator: seq<Hash>, ghost heights: seq<Option<nat>>)
      requires Coherent() && low <= top && (low == 0 || top <= 2 * (top - low + 1))
      requires Reached(before, hs, some, ks, low, top, full) && (full ==> 0 in heightIndex)
      ensures Reached(before, hs, locator, heights, 0, top, full) && |locator| <= |some| + 1
    {
      locator, heights := some, ks;
      if 0 in heightIndex {
        var genesis := heightIndex[0];
        if |locator| == 0 || locator[|locator| - 1] != genesis {
          locator, heights := AddHeight(before, hs, locator, heights, low, 0, top, full);
        } else {
          GenesisIsListed(locator, heights);
        }
      }
    }

    /** Only genesis itself can end a locator in the genesis hash. */
    lemma GenesisIsListed(locator: seq<Hash>, heights: seq<Option<nat>>)
      requires Coherent() && IsLocator(Abs(), locator, heights) && locator != []
      requires 0 in heightIndex && locator[|locator| - 1] == heightIndex[0]
      ensures heights[|heights| - 1] == Some(0)
    {
      OldIndexFacts();
      assert OnChain(Abs(), heightIndex[0]);
    }

    lemma ExtendCover(heights: seq<Option<nat>>, low: nat, k: nat, top: nat)
      requires k <= low <= top && (k < low ==> top - k <= 2 * (top - low + 1))
      requires forall f: nat | low <= f <= top :: Covers(heights, f, top)
      ensures forall f: nat | k <= f <= top :: Covers(heights + [Some(k)], f, top)
    {
      forall f: nat | k <= f <= top
        ensures Covers(heights + [Some(k)], f, top)
      {
        if f < low {
          CoversLast(heights, k, f, top);
        } else {
          CoversMore(heights, Some(k), f, top);
        }
      }
    }

    method FindLocatorMatch(locator: seq<Hash>) returns (r: Option<nat>)
      ensures IsMatch(Abs(), locator, r)
    {
      for i := 0 to |locator|
        invariant forall j | 0 <= j < i :: !OnChain(Abs(), locator[j])
      {
        var hash := locator[i];
        if hash in rootBlocks {
          var block := rootBlocks[hash];
          if block.height in heightIndex && heightIndex[block.height] == hash {
            return Some(block.height);
          }
        }
      }
      return None;
    }

    /** Entries of a valid index are stored blocks of that height. */
    lemma OldIndexFacts()
      requires Coherent()
      ensures forall k <- heightIndex :: heightIndex[k] in rootBlocks && rootBlocks[heightIndex[k]].height == k
    {
      assert forall k <- heightIndex :: OnParent(rootBlocks, heightIndex, k);
    }
  }
}

/**
 Root blocks, their ancestry and their real chain weight: the mathematical
 reading of the block store that the imperative store in ChainStore.dfy is
 proved against (src/storage/chain.rs).

 A block carries its own hash. Hashes are numbers because fork resolution
 compares them as big-endian strings; ZERO is the all-zero parent of a genesis
 block.
 */
module ChainModel {
  import opened Wrappers

  type Hash = nat

  const ZERO: Hash := 0
  const U64_MAX: nat := 0xFFFF_FFFF_FFFF_FFFF

  datatype RootBlock = RootBlock(hash: Hash, prev: Hash, height: nat, totalPow: nat, cumulativePow: nat,
                                 spaces: seq<Hash>)

  type Blocks = map<Hash, RootBlock>

  /** Every block is filed under its own hash, and heights rise by one along stored parent links. */
  ghost predicate Linked(m: Blocks) {
    && ZERO !in m
    && (forall h <- m :: m[h].hash == h)
    && (forall h <- m :: m[h].prev in m ==> m[h].height == m[m[h].prev].height + 1)
  }

  /** Genesis blocks sit at height zero. */
  ghost predicate RootsAtZero(m: Blocks) {
    forall h <- m :: m[h].prev == ZERO ==> m[h].height == 0
  }

  ghost function Rank(m: Blocks, h: Hash): nat {
    if h in m then m[h].height + 1 else 0
  }

  function SaturatingAdd(a: nat, b: nat): nat {
    if a + b <= U64_MAX then a + b else U64_MAX
  }

  /** Total work from genesis up to `h`, or None when an ancestor is not stored. */
  ghost function WeightAt(m: Blocks, h: Hash): Option<nat>
    requires Linked(m)
    decreases Rank(m, h)
  {
    if h == ZERO then Some(0)
    else if h !in m then None
    else
      match WeightAt(m, m[h].prev)
      case None => None
      case Some(w) => Some(SaturatingAdd(w, m[h].totalPow))
  }

  ghost predicate Complete(m: Blocks, h: Hash)
    requires Linked(m)
  {
    h != ZERO && WeightAt(m, h).Some?
  }

  ghost function Weight(m: Blocks, h: Hash): nat
    requires Linked(m)
  {
    match WeightAt(m, h) case None => 0 case Some(w) => w
  }

  /** The height index a chain ending in `h` should have: height to ancestor. */
  ghost function IndexOf(m: Blocks, h: Hash): map<nat, Hash>
    requires Linked(m)
    decreases Rank(m, h)
  {
    if h !in m then map[] else IndexOf(m, m[h].prev)[m[h].height := h]
  }

  /** Height of the oldest stored ancestor of `h`. */
  ghost function Base(m: Blocks, h: Hash): nat
    requires Linked(m)
    requires h in m
    decreases Rank(m, h)
  {
    if m[h].prev in m then Base(m, m[h].prev) else m[h].height
  }

  ghost function UpTo(idx: map<nat, Hash>, k: int): map<nat, Hash> {
    map i | i in idx && i <= k :: idx[i]
  }

  /** `m'` holds everything `m` holds. */
  ghost predicate Extends(m: Blocks, m': Blocks) {
    forall h <- m :: h in m' && m'[h] == m[h]
  }

  // ------------------------------------------------------------------ ancestry

  lemma {:induction false} BaseIsLow(m: Blocks, h: Hash)
    requires Linked(m) && h in m
    ensures Base(m, h) <= m[h].height
    ensures RootsAtZero(m) && Complete(m, h) ==> Base(m, h) == 0
    decreases Rank(m, h)
  {
    if m[h].prev in m {
      BaseIsLow(m, m[h].prev);
    }
    assert Complete(m, h) ==> WeightAt(m, m[h].prev).Some?;
  }

  /** The index of `h` has exactly the heights from its base to its own. */
  lemma {:induction false} IndexDomain(m: Blocks, h: Hash)
    requires Linked(m) && h in m
    ensures forall k: nat :: k in IndexOf(m, h) <==> Base(m, h) <= k <= m[h].height
    decreases Rank(m, h)
  {
    BaseIsLow(m, h);
    if m[h].prev in m {
      IndexDomain(m, m[h].prev);
      BaseIsLow(m, m[h].prev);
    }
  }

  /** Entry `k` of an index is a stored block of that very height, and the entries below it are its own index. */
  lemma {:induction false} IndexPrefix(m: Blocks, h: Hash, k: nat)
    requires Linked(m) && h in m && k in IndexOf(m, h)
    ensures IndexOf(m, h)[k] in m
    ensures m[IndexOf(m, h)[k]].height == k
    ensures IndexOf(m, IndexOf(m, h)[k]) == UpTo(IndexOf(m, h), k)
    ensures Base(m, IndexOf(m, h)[k]) == Base(m, h)
    ensures Complete(m, h) ==> Complete(m, IndexOf(m, h)[k])
    decreases Rank(m, h)
  {
    IndexDomain(m, h);
    if k < m[h].height {
      assert m[h].prev in m;
      IndexPrefix(m, m[h].prev, k);
      IndexDomain(m, m[h].prev);
    } else {
      assert UpTo(IndexOf(m, h), k) == IndexOf(m, h);
    }
  }

  // ------------------------------------------------------------------ growth

  /** Storing more blocks never changes a weight that was already known. */
  lemma {:induction false} WeightStable(m: Blocks, m': Blocks, h: Hash)
    requires Linked(m) && Linked(m') && Extends(m, m')
    requires WeightAt(m, h).Some?
    ensures WeightAt(m', h) == WeightAt(m, h)
    decreases Rank(m, h)
  {
    if h != ZERO {
      WeightStable(m, m', m[h].prev);
    }
  }

  /** Storing more blocks never changes the index of a complete chain. */
  lemma {:induction false} IndexStable(m: Blocks, m': Blocks, h: Hash)
    requires Linked(m) && Linked(m') && Extends(m, m')
    requires Complete(m, h)
    ensures h in m && h in m' && IndexOf(m', h) == IndexOf(m, h) && Base(m', h) == Base(m, h)
    decreases Rank(m, h)
  {
    if m[h].prev != ZERO {
      IndexStable(m, m', m[h].prev);
    }
  }

  /** A complete chain weighs at least as much as any of its prefixes. */
  lemma ParentIsLighter(m: Blocks, h: Hash)
    requires Linked(m) && h in m && Complete(m, h) && Weight(m, h) <= U64_MAX
    ensures m[h].prev == ZERO || (Complete(m, m[h].prev) && Weight(m, m[h].prev) <= Weight(m, h))
  {
    WeightBounded(m, m[h].prev);
  }

  lemma {:induction false} WeightBounded(m: Blocks, h: Hash)
    requires Linked(m)
    ensures Weight(m, h) <= U64_MAX
    decreases Rank(m, h)
  {
    if h != ZERO && h in m {
      WeightBounded(m, m[h].prev);
    }
  }

  /** Every ancestor listed in the index weighs no more than the chain's end. */
  lemma {:induction false} OnChainIsLighter(m: Blocks, t: Hash, k: nat)
    requires Linked(m) && Complete(m, t) && k in IndexOf(m, t)
    ensures Weight(m, IndexOf(m, t)[k]) <= Weight(m, t)
    decreases Rank(m, t)
  {
    IndexDomain(m, t);
    WeightBounded(m, t);
    ParentIsLighter(m, t);
    if k < m[t].height {
      OnChainIsLighter(m, m[t].prev, k);
    }
  }

  // ------------------------------------------------------------------ work

  /** The work of the blocks an index lists from `lo` up to `hi`, without any bound. */
  ghost function WorkOn(m: Blocks, idx: map<nat, Hash>, lo: nat, hi: nat): nat
    decreases hi
  {
    if hi < lo then 0
    else (if hi in idx && idx[hi] in m then m[idx[hi]].totalPow else 0) + (if hi == 0 then 0 else WorkOn(m, idx, lo, hi - 1))
  }

  lemma {:induction false} WorkBelow(m: Blocks, idx: map<nat, Hash>, idx': map<nat, Hash>, lo: nat, hi: nat)
    requires forall k: nat | k <= hi :: (k in idx <==> k in idx') && (k in idx ==> idx[k] == idx'[k])
    ensures WorkOn(m, idx, lo, hi) == WorkOn(m, idx', lo, hi)
    decreases hi
  {
    if lo <= hi && hi > 0 {
      WorkBelow(m, idx, idx', lo, hi - 1);
    }
  }

  lemma SaturateOnce(a: nat, b: nat)
    ensures SaturatingAdd(Min(a, U64_MAX), b) == Min(a + b, U64_MAX)
  {
  }

  /** A complete chain weighs the work of every block it lists, from its start to its end, cut off at the largest 64-bit number. */
  lemma {:induction false} WeightIsWork(m: Blocks, h: Hash)
    requires Linked(m) && Complete(m, h)
    ensures Weight(m, h) == Min(WorkOn(m, IndexOf(m, h), Base(m, h), m[h].height), U64_MAX)
    decreases Rank(m, h)
  {
    var p, k := m[h].prev, m[h].height;
    BaseIsLow(m, h);
    if p == ZERO {
      assert WeightAt(m, ZERO) == Some(0);
      assert k > 0 ==> WorkOn(m, IndexOf(m, h), k, k - 1) == 0;
    } else {
      WeightIsWork(m, p);
      IndexDomain(m, p);
      BaseIsLow(m, p);
      WorkBelow(m, IndexOf(m, h), IndexOf(m, p), Base(m, p), k - 1);
      SaturateOnce(WorkOn(m, IndexOf(m, p), Base(m, p), k - 1), m[h].totalPow);
    }
  }
}

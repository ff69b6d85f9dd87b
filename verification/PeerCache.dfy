/**
 A peer's bounded cache with exact accounting
 (simulations/network_simulation.rs and simulations/extended_scenarios.rs, UserNode).
 */
module PeerCache {

  type Entry = (nat, nat)  // content id, size

  function Total(cache: seq<Entry>): nat {
    if cache == [] then 0 else cache[0].1 + Total(cache[1..])
  }

  predicate Cached(cache: seq<Entry>, id: nat) {
    exists i | 0 <= i < |cache| :: cache[i].0 == id
  }

  ghost predicate DistinctIds(cache: seq<Entry>) {
    forall i, j | 0 <= i < j < |cache| :: cache[i].0 != cache[j].0
  }

  /** `k` is the shortest prefix whose removal makes room, or everything when nothing else does. */
  ghost predicate ShortestEviction(cache: seq<Entry>, size: nat, limit: nat, k: nat) {
    && k <= |cache|
    && (forall j | 0 <= j < k :: Total(cache[j..]) + size > limit)
    && (k < |cache| ==> Total(cache[k..]) + size <= limit)
  }

  lemma {:induction false} TotalAppend(a: seq<Entry>, e: Entry)
    ensures Total(a + [e]) == Total(a) + e.1
    decreases |a|
  {
    if a != [] {
      assert (a + [e])[1..] == a[1..] + [e];
      TotalAppend(a[1..], e);
    }
  }

  /** Evicting one more from the front drops exactly its size. */
  lemma TotalFront(cache: seq<Entry>, k: nat)
    requires k < |cache|
    ensures Total(cache[k..]) == cache[k].1 + Total(cache[k + 1..])
  {
    assert cache[k..][1..] == cache[k + 1..];
  }

  /** Two shortest evictions are one: the outcome of caching is determined. */
  lemma ShortestIsUnique(cache: seq<Entry>, size: nat, limit: nat, k: nat, l: nat)
    requires ShortestEviction(cache, size, limit, k) && ShortestEviction(cache, size, limit, l)
    ensures k == l
  {
  }

  class UserNode {
    const id: nat
    const cacheLimit: nat
    var lanes: set<nat>
    var cache: seq<Entry>
    var cacheUsed: nat
    var ownContent: set<nat>
    var ownContentSize: nat
    var isOnline: bool

    /** Recorded use is the true total and within the limit; ids are cached once and never beside own content. */
    ghost predicate Valid()
      reads this
    {
      && cacheUsed == Total(cache) && cacheUsed <= cacheLimit
      && DistinctIds(cache)
      && forall i | 0 <= i < |cache| :: cache[i].0 !in ownContent
    }

    constructor (id: nat, cacheLimit: nat)
      ensures Valid() && this.id == id && this.cacheLimit == cacheLimit
      ensures lanes == {} && cache == [] && ownContent == {} && ownContentSize == 0 && isOnline
    {
      this.id, this.cacheLimit := id, cacheLimit;
      lanes, cache, cacheUsed, ownContent, ownContentSize, isOnline := {}, [], 0, {}, 0, true;
    }

    predicate HasContent(c: nat)
      reads this
    {
      c in ownContent || Cached(cache, c)
    }

    /** Files a blob as one's own; the node stays in order if and only if the blob was not cached before. */
    method AddOwnContent(c: nat, size: nat)
      requires Valid()
      modifies this`ownContent, this`ownContentSize
      ensures Valid() <==> !Cached(cache, c)
      ensures ownContent == old(ownContent) + {c} && ownContentSize == old(ownContentSize) + size
    {
      ownContent := ownContent + {c};
      ownContentSize := ownContentSize + size;
    }

    /** Drops entries from the front until the blob fits or nothing is left. */
    method EvictFor(size: nat) returns (ghost dropped: nat)
      requires cacheUsed == Total(cache) && cacheUsed <= cacheLimit
      modifies this`cache, this`cacheUsed
      ensures ShortestEviction(old(cache), size, cacheLimit, dropped)
      ensures cache == old(cache)[dropped..] && cacheUsed == Total(cache) && cacheUsed <= cacheLimit
      ensures cache != [] ==> cacheUsed + size <= cacheLimit
    {
      dropped := 0;
      ghost var was := cache;
      assert was[0..] == was;
      while cacheUsed + size > cacheLimit && cache != []
        invariant dropped <= |was| && cache == was[dropped..] && cacheUsed == Total(cache) && cacheUsed <= cacheLimit
        invariant forall j | 0 <= j < dropped :: Total(was[j..]) + size > cacheLimit
        decreases |cache|
      {
        TotalFront(was, dropped);
        var evicted := cache[0].1;
        cache := cache[1..];
        cacheUsed := cacheUsed - evicted;
        dropped := dropped + 1;
      }
    }

    /**
     Caches a blob. What is already held changes nothing; otherwise the shortest
     sufficient prefix is dropped and the blob joins the back if it fits at all.
     */
    method CacheContent(c: nat, size: nat) returns (ghost dropped: nat)
      requires Valid()
      modifies this`cache, this`cacheUsed
      ensures Valid()
      ensures old(HasContent(c)) ==> cache == old(cache)
      ensures !old(HasContent(c)) ==> ShortestEviction(old(cache), size, cacheLimit, dropped)
      ensures !old(HasContent(c)) ==> cache == old(cache)[dropped..] + (if size <= cacheLimit then [(c, size)] else [])
      ensures size <= cacheLimit ==> HasContent(c)
      ensures !old(HasContent(c)) && size > cacheLimit ==> cache == []
    {
      dropped := 0;
      if c in ownContent || Cached(cache, c) {
        return;
      }
      dropped := EvictFor(size);
      if cacheUsed + size <= cacheLimit {
        TotalAppend(cache, (c, size));
        cache := cache + [(c, size)];
        cacheUsed := cacheUsed + size;
        assert cache[|cache| - 1].0 == c;
      }
    }
  }
}

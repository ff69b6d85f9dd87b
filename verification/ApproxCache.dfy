/**
 The approximate LRU cache (simulations/availability_simulation.rs, User): on
 eviction the counter drops by the size of the blob being viewed, not by the size
 of the blob that leaves.
 */
module ApproxCache {
  import opened Wrappers

  /** Cached ids, most recent first, and the byte counter. */
  datatype State = State(cache: seq<nat>, bytes: nat)

  function Without(s: seq<nat>, id: nat): (r: seq<nat>)
    ensures forall x :: x in r <==> x in s && x != id
    ensures id !in s ==> r == s
  {
    if s == [] then []
    else if s[0] == id then Without(s[1..], id)
    else [s[0]] + Without(s[1..], id)
  }

  /**
   One view, in closed form. A blob already cached moves to the front; a new one
   joins if the counter stays within the limit, and otherwise replaces the oldest.
   None is an arithmetic underflow of the counter.
   */
  function Viewed(s: State, id: nat, size: nat, limit: nat): Option<State> {
    if id in s.cache then
      if s.bytes < size then None else Some(State([id] + Without(s.cache, id), s.bytes))
    else if s.bytes + size <= limit then Some(State([id] + s.cache, s.bytes + size))
    else Some(State(([id] + s.cache)[..|s.cache|], s.bytes))
  }

  // ------------------------------------------------------------------- lists

  lemma {:induction false} WithoutAt(s: seq<nat>, p: nat)
    requires Distinct(s) && p < |s|
    ensures Without(s, s[p]) == s[..p] + s[p + 1..]
    decreases |s|
  {
    if p == 0 {
      assert s[0] !in s[1..];
    } else {
      WithoutAt(s[1..], p - 1);
      assert s[1..][p - 1] == s[p];
      assert s[1..][..p - 1] == s[1..p];
      assert s[1..][p - 1 + 1..] == s[p + 1..];
      assert [s[0]] + (s[1..p] + s[p + 1..]) == s[..p] + s[p + 1..];
    }
  }

  lemma DistinctCons(x: nat, rest: seq<nat>)
    requires Distinct(rest) && x !in rest
    ensures Distinct([x] + rest)
  {
  }

  lemma {:induction false} WithoutIsDistinct(s: seq<nat>, id: nat)
    requires Distinct(s)
    ensures Distinct(Without(s, id)) && |Without(s, id)| == |s| - (if id in s then 1 else 0)
    decreases |s|
  {
    if s != [] {
      var rest := s[1..];
      assert s[0] !in rest && forall x :: x in s <==> x == s[0] || x in rest;
      WithoutIsDistinct(rest, id);
      if s[0] != id {
        DistinctCons(s[0], Without(rest, id));
      }
    }
  }

  lemma HitKeepsList(s: seq<nat>, id: nat)
    requires Distinct(s) && id in s
    ensures Distinct([id] + Without(s, id)) && |Without(s, id)| == |s| - 1
  {
    WithoutIsDistinct(s, id);
    DistinctCons(id, Without(s, id));
  }

  // -------------------------------------------------------------------- runs

  /** Views one after another; ids that name no stored blob change nothing. */
  function Run(s: State, views: seq<nat>, sizes: map<nat, nat>, limit: nat): Option<State>
    decreases |views|
  {
    if views == [] then Some(s)
    else
      var before := Run(s, views[..|views| - 1], sizes, limit);
      var id := views[|views| - 1];
      if before.None? || id !in sizes then before else Viewed(before.value, id, sizes[id], limit)
  }

  const EMPTY := State([], 0)

  /** The counter is within the limit; only stored blobs are cached, each once. */
  ghost predicate Sound(s: State, sizes: map<nat, nat>, limit: nat) {
    s.bytes <= limit && Distinct(s.cache) && forall i | 0 <= i < |s.cache| :: s.cache[i] in sizes
  }

  /** Whatever the sizes: the limit holds, the counter and the number of cached blobs never fall. */
  lemma ViewIsMonotone(s: State, id: nat, sizes: map<nat, nat>, limit: nat)
    requires Sound(s, sizes, limit) && id in sizes && Viewed(s, id, sizes[id], limit).Some?
    ensures var t := Viewed(s, id, sizes[id], limit).value;
            Sound(t, sizes, limit) && t.bytes >= s.bytes && |t.cache| >= |s.cache|
  {
    if id in s.cache {
      HitKeepsList(s.cache, id);
      forall x | x in [id] + Without(s.cache, id)
        ensures x in sizes
      {
      }
    }
  }

  lemma {:induction false} RunIsSound(views: seq<nat>, sizes: map<nat, nat>, limit: nat)
    requires Run(EMPTY, views, sizes, limit).Some?
    ensures Sound(Run(EMPTY, views, sizes, limit).value, sizes, limit)
    decreases |views|
  {
    if views != [] {
      var id := views[|views| - 1];
      RunIsSound(views[..|views| - 1], sizes, limit);
      if id in sizes {
        ViewIsMonotone(Run(EMPTY, views[..|views| - 1], sizes, limit).value, id, sizes, limit);
      }
    }
  }

  // ----------------------------------------------------------------- recency

  /** How many views had been made when `id` was last viewed, counting that one; zero if it never was. */
  ghost function LastView(views: seq<nat>, id: nat): (n: nat)
    ensures n <= |views| && (n > 0 ==> views[n - 1] == id)
    ensures forall i | n <= i < |views| :: views[i] != id
    decreases |views|
  {
    if views == [] then 0
    else if views[|views| - 1] == id then |views|
    else LastView(views[..|views| - 1], id)
  }

  /** `x` was last viewed before `y` was. */
  ghost predicate Staler(views: seq<nat>, x: nat, y: nat) {
    LastView(views, x) < LastView(views, y)
  }

  ghost predicate ByRecency(cache: seq<nat>, views: seq<nat>) {
    forall i, j | 0 <= i < j < |cache| :: Staler(views, cache[j], cache[i])
  }

  /** The list is ordered by last view, latest first, and no stored blob left out was viewed later than one listed. */
  ghost predicate MostRecent(cache: seq<nat>, views: seq<nat>, sizes: map<nat, nat>) {
    && ByRecency(cache, views)
    && (forall x, i | x in sizes && x !in cache && 0 <= i < |cache| :: Staler(views, x, cache[i]))
  }

  lemma ViewMovesOne(views: seq<nat>, id: nat, x: nat)
    ensures LastView(views + [id], x) == if x == id then |views| + 1 else LastView(views, x)
  {
    assert (views + [id])[..|views|] == views;
  }

  lemma ViewKeepsStaler(views: seq<nat>, id: nat, x: nat, y: nat)
    requires x != id && (y == id || Staler(views, x, y))
    ensures Staler(views + [id], x, y)
  {
    ViewMovesOne(views, id, x);
    ViewMovesOne(views, id, y);
  }

  lemma ConsByRecency(x: nat, rest: seq<nat>, views: seq<nat>)
    requires ByRecency(rest, views) && forall j | 0 <= j < |rest| :: Staler(views, rest[j], x)
    ensures ByRecency([x] + rest, views)
  {
  }

  lemma {:induction false} WithoutKeepsRecency(cache: seq<nat>, views: seq<nat>, id: nat)
    requires ByRecency(cache, views)
    ensures ByRecency(Without(cache, id), views)
    decreases |cache|
  {
    if cache != [] {
      WithoutKeepsRecency(cache[1..], views, id);
      var rest := Without(cache[1..], id);
      forall j | 0 <= j < |rest|
        ensures Staler(views, rest[j], cache[0])
      {
        assert rest[j] in cache[1..];
      }
      ConsByRecency(cache[0], rest, views);
    }
  }

  /** The blob just viewed in front of a most recent list that does not hold it. */
  lemma FrontKeepsRecency(rest: seq<nat>, views: seq<nat>, id: nat, sizes: map<nat, nat>)
    requires id !in rest && ByRecency(rest, views)
    requires forall x, i | x in sizes && x !in rest && x != id && 0 <= i < |rest| :: Staler(views, x, rest[i])
    ensures MostRecent([id] + rest, views + [id], sizes)
  {
    var c := [id] + rest;
    forall i, j | 0 <= i < j < |c|
      ensures Staler(views + [id], c[j], c[i])
    {
      ViewKeepsStaler(views, id, c[j], c[i]);
    }
    forall x, i | x in sizes && x !in c && 0 <= i < |c|
      ensures Staler(views + [id], x, c[i])
    {
      assert c[0] == id;
      if i > 0 {
        assert x !in rest && Staler(views, x, rest[i - 1]);
      }
      ViewKeepsStaler(views, id, x, c[i]);
    }
  }

  /** Dropping the last of a most recent list leaves a most recent list. */
  lemma DropKeepsRecency(c: seq<nat>, views: seq<nat>, sizes: map<nat, nat>)
    requires c != [] && MostRecent(c, views, sizes)
    ensures MostRecent(c[..|c| - 1], views, sizes)
  {
    var d := c[..|c| - 1];
    assert c == d + [c[|c| - 1]];
    forall x, i | x in sizes && x !in d && 0 <= i < |d|
      ensures Staler(views, x, d[i])
    {
      assert d[i] == c[i];
    }
  }

  lemma ViewKeepsRecency(s: State, views: seq<nat>, id: nat, sizes: map<nat, nat>, limit: nat)
    requires MostRecent(s.cache, views, sizes) && id in sizes && Viewed(s, id, sizes[id], limit).Some?
    ensures MostRecent(Viewed(s, id, sizes[id], limit).value.cache, views + [id], sizes)
  {
    if id in s.cache {
      var rest := Without(s.cache, id);
      WithoutKeepsRecency(s.cache, views, id);
      forall x, i | x in sizes && x !in rest && x != id && 0 <= i < |rest|
        ensures Staler(views, x, rest[i])
      {
        assert rest[i] in s.cache;
      }
      FrontKeepsRecency(rest, views, id, sizes);
    } else {
      FrontKeepsRecency(s.cache, views, id, sizes);
      DropKeepsRecency([id] + s.cache, views + [id], sizes);
    }
  }

  lemma UnstoredKeepsRecency(cache: seq<nat>, views: seq<nat>, id: nat, sizes: map<nat, nat>)
    requires MostRecent(cache, views, sizes) && id !in sizes && forall i | 0 <= i < |cache| :: cache[i] in sizes
    ensures MostRecent(cache, views + [id], sizes)
  {
    forall i, j | 0 <= i < j < |cache|
      ensures Staler(views + [id], cache[j], cache[i])
    {
      ViewKeepsStaler(views, id, cache[j], cache[i]);
    }
    forall x, i | x in sizes && x !in cache && 0 <= i < |cache|
      ensures Staler(views + [id], x, cache[i])
    {
      ViewKeepsStaler(views, id, x, cache[i]);
    }
  }

  /** Over every run the cache holds the most recently viewed blobs, as many as it holds, latest first. */
  lemma {:induction false} CacheIsMostRecent(views: seq<nat>, sizes: map<nat, nat>, limit: nat)
    requires Run(EMPTY, views, sizes, limit).Some?
    ensures MostRecent(Run(EMPTY, views, sizes, limit).value.cache, views, sizes)
    decreases |views|
  {
    if views != [] {
      var earlier, id := views[..|views| - 1], views[|views| - 1];
      assert views == earlier + [id];
      CacheIsMostRecent(earlier, sizes, limit);
      RunIsSound(earlier, sizes, limit);
      var s := Run(EMPTY, earlier, sizes, limit).value;
      if id in sizes {
        ViewKeepsRecency(s, earlier, id, sizes, limit);
      } else {
        UnstoredKeepsRecency(s.cache, earlier, id, sizes);
      }
    }
  }

  /** After any view of a stored blob, that blob heads the cache unless the cache is empty. */
  lemma ViewedBlobHeadsCache(views: seq<nat>, id: nat, sizes: map<nat, nat>, limit: nat)
    requires id in sizes && Run(EMPTY, views + [id], sizes, limit).Some?
    ensures var c := Run(EMPTY, views + [id], sizes, limit).value.cache; c == [] || c[0] == id
  {
    assert (views + [id])[..|views|] == views;
  }

  lemma PushedOutIsLast(c: seq<nat>, id: nat, views: seq<nat>, gone: nat)
    requires ByRecency(c, views) && gone in c && gone !in ([id] + c)[..|c|]
    ensures forall x <- c | x != gone :: Staler(views, gone, x) && x in ([id] + c)[..|c|]
  {
    var kept, k := ([id] + c)[..|c|], |c| - 1;
    forall i | 0 <= i < k
      ensures c[i] in kept
    {
      assert kept[i + 1] == c[i];
    }
    assert c[k] == gone;
  }

  /** At most one blob leaves on a view, it is a view of a blob that was not cached, and what leaves was viewed longest ago. */
  lemma EvictedBlobIsStalest(views: seq<nat>, id: nat, sizes: map<nat, nat>, limit: nat, gone: nat)
    requires id in sizes && Run(EMPTY, views, sizes, limit).Some? && Run(EMPTY, views + [id], sizes, limit).Some?
    requires gone in Run(EMPTY, views, sizes, limit).value.cache && gone !in Run(EMPTY, views + [id], sizes, limit).value.cache
    ensures var before, after := Run(EMPTY, views, sizes, limit).value, Run(EMPTY, views + [id], sizes, limit).value;
            && id !in before.cache && before.bytes + sizes[id] > limit
            && (forall x <- before.cache | x != gone :: Staler(views, gone, x) && x in after.cache)
  {
    assert (views + [id])[..|views|] == views;
    CacheIsMostRecent(views, sizes, limit);
    var s := Run(EMPTY, views, sizes, limit).value;
    assert gone != id && id !in s.cache;
    PushedOutIsLast(s.cache, id, views, gone);
  }

  // --------------------------------------------------------------- underflow

  /** The counter covers every cached blob on its own. */
  ghost predicate Covered(s: State, sizes: map<nat, nat>) {
    forall i | 0 <= i < |s.cache| :: s.cache[i] in sizes && sizes[s.cache[i]] <= s.bytes
  }

  /** No stored blob is larger than `bound`. */
  ghost predicate Bounded(sizes: map<nat, nat>, bound: nat) {
    forall id <- sizes :: sizes[id] <= bound
  }

  lemma HalfSizedStaysCovered(s: State, id: nat, sizes: map<nat, nat>, limit: nat, bound: nat)
    requires Covered(s, sizes) && id in sizes && Bounded(sizes, bound) && 2 * bound <= limit + 1
    ensures Viewed(s, id, sizes[id], limit).Some? && Covered(Viewed(s, id, sizes[id], limit).value, sizes)
  {
    var t := Viewed(s, id, sizes[id], limit);
    if id in s.cache {
      var p :| 0 <= p < |s.cache| && s.cache[p] == id;
      assert sizes[id] <= s.bytes;
      forall i | 0 <= i < |t.value.cache|
        ensures t.value.cache[i] in sizes && sizes[t.value.cache[i]] <= s.bytes
      {
        assert i == 0 || t.value.cache[i] in Without(s.cache, id);
      }
    }
  }

  lemma {:induction false} HalfSizedRunIsSafe(views: seq<nat>, sizes: map<nat, nat>, limit: nat, bound: nat)
    requires Bounded(sizes, bound) && 2 * bound <= limit + 1
    ensures Run(EMPTY, views, sizes, limit).Some? && Covered(Run(EMPTY, views, sizes, limit).value, sizes)
    decreases |views|
  {
    if views != [] {
      var id := views[|views| - 1];
      HalfSizedRunIsSafe(views[..|views| - 1], sizes, limit, bound);
      if id in sizes {
        HalfSizedStaysCovered(Run(EMPTY, views[..|views| - 1], sizes, limit).value, id, sizes, limit, bound);
      }
    }
  }

  /** A blob over half the cache, viewed after a smaller one and then again, drives the counter below zero. */
  lemma OversizedRunUnderflows(limit: nat, bound: nat) returns (views: seq<nat>, sizes: map<nat, nat>)
    requires 2 * bound > limit + 1
    ensures Bounded(sizes, bound) && Run(EMPTY, views, sizes, limit).None?
  {
    var first := if bound <= limit then limit - bound + 1 else 0;
    sizes, views := map[0 := first, 1 := bound], [0, 1, 1];
    assert views[..2][..1] == [0] && [0][..0] == [];
    assert Run(EMPTY, [], sizes, limit) == Some(EMPTY);
    assert Viewed(EMPTY, 0, first, limit) == Some(State([0], first)) by {
      assert [0] + [] == [0];
    }
    assert Run(EMPTY, [0], sizes, limit) == Some(State([0], first));
    assert ([1] + [0])[..1] == [1];
    assert Run(EMPTY, views[..2], sizes, limit) == Some(State([1], first));
  }

  /** No run underflows exactly when no blob may exceed half the cache. */
  lemma SafeIff(limit: nat, bound: nat)
    ensures (forall views: seq<nat>, sizes: map<nat, nat> | Bounded(sizes, bound) :: Run(EMPTY, views, sizes, limit).Some?)
            <==> 2 * bound <= limit + 1
  {
    if 2 * bound <= limit + 1 {
      forall views: seq<nat>, sizes: map<nat, nat> | Bounded(sizes, bound)
        ensures Run(EMPTY, views, sizes, limit).Some?
      {
        HalfSizedRunIsSafe(views, sizes, limit, bound);
      }
    } else {
      var views, sizes := OversizedRunUnderflows(limit, bound);
    }
  }

  // ------------------------------------------------------------ equal sizes

  lemma Times(n: nat, size: nat)
    ensures (n + 1) * size == n * size + size && (n > 0 ==> n * size >= size)
  {
    assert n > 0 ==> n * size == (n - 1) * size + size;
  }

  lemma EqualSizeStep(s: State, id: nat, size: nat, limit: nat)
    requires s.bytes == |s.cache| * size && Distinct(s.cache)
    ensures var t := Viewed(s, id, size, limit);
            t.Some? && t.value.bytes == |t.value.cache| * size && Distinct(t.value.cache)
  {
    Times(|s.cache|, size);
    if id in s.cache {
      HitKeepsList(s.cache, id);
    }
  }

  /** When all blobs have one size, the counter is the exact total and never underflows, whatever that size. */
  lemma {:induction false} EqualSizesAreExact(views: seq<nat>, sizes: map<nat, nat>, size: nat, limit: nat)
    requires forall id <- sizes :: sizes[id] == size
    ensures var t := Run(EMPTY, views, sizes, limit);
            t.Some? && t.value.bytes == |t.value.cache| * size && Distinct(t.value.cache)
    decreases |views|
  {
    if views != [] {
      var id := views[|views| - 1];
      EqualSizesAreExact(views[..|views| - 1], sizes, size, limit);
      if id in sizes {
        EqualSizeStep(Run(EMPTY, views[..|views| - 1], sizes, limit).value, id, size, limit);
      }
    }
  }

  // -------------------------------------------------------------------- user

  function SaturatingSub(a: nat, b: nat): nat {
    if a >= b then a - b else 0
  }

  class User {
    const maxCacheBytes: nat
    var cache: seq<nat>
    var cacheBytes: nat
    var ownContent: set<nat>

    ghost predicate Valid()
      reads this
    {
      cacheBytes <= maxCacheBytes && Distinct(cache)
    }

    ghost function Abs(): State
      reads this
    {
      State(cache, cacheBytes)
    }

    constructor (maxCacheBytes: nat)
      ensures Valid() && Abs() == EMPTY && this.maxCacheBytes == maxCacheBytes && ownContent == {}
    {
      this.maxCacheBytes, cache, cacheBytes, ownContent := maxCacheBytes, [], 0, {};
    }

    predicate HasContent(id: nat)
      reads this
    {
      id in ownContent || id in cache
    }

    method Position(id: nat) returns (p: nat)
      ensures p <= |cache| && (p < |cache| <==> id in cache) && (p < |cache| ==> cache[p] == id)
    {
      p := 0;
      while p < |cache| && cache[p] != id
        invariant p <= |cache| && id !in cache[..p]
      {
        p := p + 1;
      }
    }

    /** A view: not ok is the underflow; otherwise the eviction loop runs at most once. */
    method ViewContent(id: nat, size: nat) returns (ok: bool, ghost rounds: nat)
      requires Valid()
      modifies this`cache, this`cacheBytes
      ensures rounds <= 1 && ok == Viewed(old(Abs()), id, size, maxCacheBytes).Some?
      ensures ok ==> Valid() && Some(Abs()) == Viewed(old(Abs()), id, size, maxCacheBytes)
      ensures ok && cache != [] ==> cache[0] == id && cache[1..] <= Without(old(cache), id)
      ensures ok && rounds == 1 ==> id !in old(cache) && old(cacheBytes) + size > maxCacheBytes
    {
      rounds := 0;
      ghost var was := cache;
      var p := Position(id);
      if p < |cache| {
        WithoutAt(cache, p);
        HitKeepsList(cache, id);
        if cacheBytes < size {
          ok := false;
          return;
        }
        cache := cache[..p] + cache[p + 1..];
        cacheBytes := cacheBytes - size;
      }
      ok := true;
      cache := [id] + cache;
      cacheBytes := cacheBytes + size;
      ghost var full := cache;
      while cacheBytes > maxCacheBytes
        invariant rounds <= 1
        invariant rounds == 0 ==> cache == full && cacheBytes == (if id in was then old(cacheBytes) else old(cacheBytes) + size)
        invariant rounds == 1 ==> id !in was && old(cacheBytes) + size > maxCacheBytes
                                  && cache == full[..|full| - 1] && cacheBytes == old(cacheBytes)
        decreases 1 - rounds
      {
        if |cache| > 0 {
          cache := cache[..|cache| - 1];
          cacheBytes := SaturatingSub(cacheBytes, size);
        }
        rounds := rounds + 1;
      }
    }
  }
}

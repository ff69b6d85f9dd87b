/**
 The network-wide availability simulation (simulations/network_simulation.rs).
 Random draws are arbitrary choices.
 */
module NetworkSim {
  import opened Wrappers
  import opened PeerCache

  datatype Blob = Blob(id: nat, size: nat, author: nat, createdAt: nat, views: nat)

  type Content = map<nat, Blob>

  // ------------------------------------------------------------------ totals

  ghost function SizeAt(c: Content, id: nat): nat {
    if id in c then c[id].size else 0
  }

  /** Size of what author `a` posted among the first `n` blobs. */
  ghost function OwnSum(c: Content, a: nat, n: nat): nat {
    if n == 0 then 0 else OwnSum(c, a, n - 1) + (if n - 1 in c && c[n - 1].author == a then c[n - 1].size else 0)
  }

  ghost function AllSum(c: Content, n: nat): nat {
    if n == 0 then 0 else AllSum(c, n - 1) + SizeAt(c, n - 1)
  }

  ghost function OwnSums(c: Content, authors: nat, n: nat): nat {
    if authors == 0 then 0 else OwnSums(c, authors - 1, n) + OwnSum(c, authors - 1, n)
  }

  lemma {:induction false} OwnSumsStep(c: Content, authors: nat, n: nat)
    requires n in c
    ensures OwnSums(c, authors, n + 1) == OwnSums(c, authors, n) + (if c[n].author < authors then c[n].size else 0)
    decreases authors
  {
    if authors > 0 {
      OwnSumsStep(c, authors - 1, n);
    }
  }

  /** Summed over all authors, own content is all content. */
  lemma {:induction false} OwnSumsAreAll(c: Content, authors: nat, n: nat)
    requires forall id: nat | id < n :: id in c && c[id].author < authors
    ensures OwnSums(c, authors, n) == AllSum(c, n)
    decreases n
  {
    if n > 0 {
      OwnSumsAreAll(c, authors, n - 1);
      OwnSumsStep(c, authors, n - 1);
    } else {
      NothingYet(c, authors);
    }
  }

  lemma {:induction false} NothingYet(c: Content, authors: nat)
    ensures OwnSums(c, authors, 0) == 0
    decreases authors
  {
    if authors > 0 {
      NothingYet(c, authors - 1);
    }
  }

  ghost function OwnSet(c: Content, a: nat, n: nat): set<nat> {
    if n == 0 then {}
    else if n - 1 in c && c[n - 1].author == a then OwnSet(c, a, n - 1) + {n - 1}
    else OwnSet(c, a, n - 1)
  }

  lemma {:induction false} OwnSetIs(c: Content, a: nat, n: nat)
    ensures forall id :: id in OwnSet(c, a, n) <==> id in c && id < n && c[id].author == a
    decreases n
  {
    if n > 0 {
      OwnSetIs(c, a, n - 1);
    }
  }

  /** Same blobs below `n`, up to view counts. */
  ghost predicate SameBelow(c: Content, d: Content, n: nat) {
    forall id: nat | id < n :: id in c && id in d && c[id].size == d[id].size && c[id].author == d[id].author
  }

  /** Every blob of `c` is in `d` as it was, with at least its views. */
  ghost predicate Carried(c: Content, d: Content) {
    forall id <- c :: id in d && c[id].views <= d[id].views && d[id] == c[id].(views := d[id].views)
  }

  /** Every blob of `d` that `c` lacks was made at `tick`. */
  ghost predicate AddedAt(c: Content, d: Content, tick: nat) {
    forall id <- d :: id in c || d[id].createdAt == tick
  }

  lemma CarriedOn(c: Content, d: Content, e: Content, tick: nat)
    requires Carried(c, d) && AddedAt(c, d, tick) && Carried(d, e) && d.Keys == e.Keys
    ensures Carried(c, e) && AddedAt(c, e, tick)
  {
  }

  lemma {:induction false} SumsAgree(c: Content, d: Content, a: nat, n: nat)
    requires SameBelow(c, d, n)
    ensures OwnSum(c, a, n) == OwnSum(d, a, n) && OwnSet(c, a, n) == OwnSet(d, a, n)
    decreases n
  {
    if n > 0 {
      SumsAgree(c, d, a, n - 1);
    }
  }

  /** User `i` holds exactly its own blobs among the first `n`, at their true sizes, and caches only true copies. */
  ghost predicate UserOk(u: UserNode, i: nat, c: Content, n: nat)
    reads u
  {
    && u.Valid()
    && u.ownContent == OwnSet(c, i, n) && u.ownContentSize == OwnSum(c, i, n)
    && TrueCopies(u.cache, c, n)
  }

  ghost predicate TrueCopies(cache: seq<Entry>, c: Content, n: nat) {
    forall k | 0 <= k < |cache| :: cache[k].0 < n && cache[k].0 in c && cache[k].1 == c[cache[k].0].size
  }

  lemma UserOkAgrees(u: UserNode, i: nat, c: Content, d: Content, n: nat)
    requires UserOk(u, i, c, n) && SameBelow(c, d, n)
    ensures UserOk(u, i, d, n)
  {
    SumsAgree(c, d, i, n);
  }

  // ------------------------------------------------------------------ the weighted draw

  /** The activity of the first `k` users who are on line. */
  ghost function Activity(online: seq<bool>, activity: seq<real>, k: nat): real
    requires k <= |online| == |activity|
  {
    if k == 0 then 0.0 else Activity(online, activity, k - 1) + (if online[k - 1] then activity[k - 1] else 0.0)
  }

  method TotalActivity(online: seq<bool>, activity: seq<real>) returns (total: real)
    requires |online| == |activity|
    ensures total == Activity(online, activity, |online|)
  {
    total := 0.0;
    for i := 0 to |online|
      invariant total == Activity(online, activity, i)
    {
      if online[i] {
        total := total + activity[i];
      }
    }
  }

  /** The first user on line at whom the running total of activity reaches the share. */
  method PickAt(online: seq<bool>, activity: seq<real>, share: real) returns (author: nat)
    requires |online| == |activity| && 0.0 <= share < Activity(online, activity, |online|)
    ensures author < |online| && online[author] && share <= Activity(online, activity, author + 1)
    ensures forall i | 0 <= i < author && online[i] :: Activity(online, activity, i + 1) < share
  {
    var pick := share;
    author := 0;
    while author < |online|
      invariant author <= |online| && pick == share - Activity(online, activity, author)
      invariant pick > 0.0 || Activity(online, activity, author) <= 0.0
      invariant forall i | 0 <= i < author && online[i] :: Activity(online, activity, i + 1) < share
    {
      if online[author] {
        pick := pick - activity[author];
        if pick <= 0.0 {
          return;
        }
      }
      author := author + 1;
    }
  }

  lemma ShareIsLess(draw: real, total: real)
    requires 0.0 <= draw < 1.0 && total > 0.0
    ensures 0.0 <= draw * total < total
  {
  }

  lemma {:induction false} ActivityIsPositive(online: seq<bool>, activity: seq<real>, k: nat)
    requires k <= |online| == |activity| && forall i | 0 <= i < |activity| :: activity[i] >= 0.0
    ensures Activity(online, activity, k) >= 0.0
  {
    if k > 0 {
      ActivityIsPositive(online, activity, k - 1);
    }
  }

  /** Somebody is drawn exactly when somebody on line is active, in proportion to activity. */
  method WeightedPick(online: seq<bool>, activity: seq<real>, draw: real) returns (author: Option<nat>)
    requires |online| == |activity| && 0.0 <= draw < 1.0 && forall i | 0 <= i < |activity| :: activity[i] >= 0.0
    ensures author.Some? <==> Activity(online, activity, |online|) != 0.0
    ensures author.Some? ==>
              var share := draw * Activity(online, activity, |online|);
              && author.value < |online| && online[author.value] && share <= Activity(online, activity, author.value + 1)
              && forall i | 0 <= i < author.value && online[i] :: Activity(online, activity, i + 1) < share
  {
    var total := TotalActivity(online, activity);
    if total == 0.0 {
      return None;
    }
    ActivityIsPositive(online, activity, |online|);
    ShareIsLess(draw, total);
    var i := PickAt(online, activity, draw * total);
    author := Some(i);
  }

  class NetworkSimulation {
    var users: seq<UserNode>
    var content: Content
    var nextContentId: nat
    var currentTick: nat
    var chainRecords: nat

    ghost predicate Distinct()
      reads this
    {
      forall i, j | 0 <= i < j < |users| :: users[i] != users[j]
    }

    /** Blobs are numbered without gaps, each with a real author. */
    ghost predicate Numbered()
      reads this
    {
      && (forall id: nat :: id in content <==> id < nextContentId)
      && (forall id <- content :: content[id].id == id && content[id].author < |users| && content[id].createdAt <= currentTick)
      && chainRecords == nextContentId
    }

    /** The first `n` blobs are where they belong. */
    ghost predicate PlacedBelow(n: nat)
      reads this, users
    {
      && Distinct() && Numbered() && n <= nextContentId
      && forall i | 0 <= i < |users| :: UserOk(users[i], i, content, n)
    }

    ghost predicate Valid()
      reads this, users
    {
      PlacedBelow(nextContentId)
    }

    constructor (count: nat, cacheLimit: nat)
      ensures Valid() && content == map[] && |users| == count && fresh(users)
      ensures forall u <- users :: u.cacheLimit == cacheLimit
    {
      users, content, nextContentId, currentTick, chainRecords := [], map[], 0, 0, 0;
      new;
      while |users| < count
        invariant |users| <= count && content == map[] && nextContentId == 0 && currentTick == 0 && chainRecords == 0
        invariant fresh(users) && Distinct()
        invariant forall i | 0 <= i < |users| :: UserOk(users[i], i, content, 0) && users[i].cacheLimit == cacheLimit
      {
        var u := new UserNode(|users|, cacheLimit);
        users := users + [u];
      }
    }

    /** Users go on and off line at random. */
    method ToggleOnline()
      requires Valid()
      modifies users`isOnline
      ensures Valid()
    {
      for i := 0 to |users|
        invariant Valid()
      {
        var online: bool := *;
        users[i].isOnline := online;
      }
    }

    /** The activity-weighted draw: some user who is online, or nobody, with any activity levels and any draw. */
    method PickAuthor() returns (author: Option<nat>)
      ensures author.Some? ==> author.value < |users| && users[author.value].isOnline
    {
      var online := seq(|users|, i requires 0 <= i < |users| reads this, users => users[i].isOnline);
      var activity: seq<real>, draw: real := *, *;
      author := None;
      if |activity| == |users| && 0.0 <= draw < 1.0 && forall i | 0 <= i < |activity| :: activity[i] >= 0.0 {
        author := WeightedPick(online, activity, draw);
      }
    }

    /** `newContent` lists this tick's blobs, numbered on from `n0`. */
    ghost predicate Records(newContent: seq<(nat, nat, nat)>, n0: nat)
      reads this
    {
      forall j | 0 <= j < |newContent| ::
        && newContent[j].0 == n0 + j && newContent[j].0 in content
        && content[newContent[j].0] == Blob(newContent[j].0, newContent[j].1, newContent[j].2, currentTick, 0)
    }

    /** Records one new blob under the next id. */
    method Post(author: nat, size: nat) returns (id: nat)
      requires Numbered() && author < |users|
      modifies this`content, this`nextContentId, this`chainRecords
      ensures Numbered() && id == old(nextContentId) && nextContentId == id + 1
      ensures content == old(content)[id := Blob(id, size, author, currentTick, 0)]
    {
      id := nextContentId;
      nextContentId := nextContentId + 1;
      content := content[id := Blob(id, size, author, currentTick, 0)];
      chainRecords := chainRecords + 1;
    }

    /** Records new blobs; their authors do not hold them yet. */
    method CreatePosts(posts: nat) returns (newContent: seq<(nat, nat, nat)>)
      requires Valid()
      modifies this`content, this`nextContentId, this`chainRecords
      ensures PlacedBelow(old(nextContentId)) && nextContentId == old(nextContentId) + |newContent|
      ensures |newContent| <= posts && Carried(old(content), content) && AddedAt(old(content), content, currentTick)
      ensures Records(newContent, old(nextContentId))
    {
      newContent := [];
      ghost var n0, was := nextContentId, content;
      for p := 0 to posts
        invariant |newContent| <= p && nextContentId == n0 + |newContent|
        invariant Numbered() && Carried(was, content) && AddedAt(was, content, currentTick)
        invariant Records(newContent, n0)
      {
        var author := PickAuthor();
        if author.Some? {
          var size: nat := *;
          var id := Post(author.value, size);
          newContent := newContent + [(id, size, author.value)];
        }
      }
      forall i | 0 <= i < |users|
        ensures UserOk(users[i], i, content, n0)
      {
        UserOkAgrees(users[i], i, was, content, n0);
      }
    }

    /** Hands one new blob to its author. */
    method StoreOwn(ghost id: nat, made: (nat, nat, nat))
      requires id < nextContentId && PlacedBelow(id) && made.0 == id && made.1 == content[id].size && made.2 == content[id].author
      modifies users`ownContent, users`ownContentSize
      ensures PlacedBelow(id + 1)
    {
      OwnSetIs(content, made.2, id);
      users[made.2].AddOwnContent(made.0, made.1);
    }

    /** One view: media is cached, the view is counted. */
    method View(i: nat, id: nat)
      requires Valid() && i < |users| && id in content
      modifies this`content, users`cache, users`cacheUsed
      ensures Valid()
      ensures content == old(content)[id := old(content)[id].(views := old(content)[id].views + 1)]
      ensures old(content)[id].size > 10_000 && old(content)[id].size <= users[i].cacheLimit ==> users[i].HasContent(id)
      ensures old(content)[id].size <= 10_000 ==> users[i].cache == old(users[i].cache)
    {
      if content[id].size > 10_000 {
        Cache(i, id);
      }
      CountView(id);
    }

    method Cache(i: nat, id: nat)
      requires Valid() && i < |users| && id in content
      modifies users`cache, users`cacheUsed
      ensures Valid() && (content[id].size <= users[i].cacheLimit ==> users[i].HasContent(id))
    {
      assert UserOk(users[i], i, content, nextContentId);
      var dropped := users[i].CacheContent(id, content[id].size);
      assert TrueCopies(users[i].cache, content, nextContentId);
      assert UserOk(users[i], i, content, nextContentId);
    }

    method CountView(id: nat)
      requires Valid() && id in content
      modifies this`content
      ensures Valid() && content == old(content)[id := old(content)[id].(views := old(content)[id].views + 1)]
    {
      ghost var was := content;
      content := content[id := content[id].(views := content[id].views + 1)];
      forall k | 0 <= k < |users|
        ensures UserOk(users[k], k, content, nextContentId)
      {
        assert UserOk(users[k], k, was, nextContentId);
        UserOkAgrees(users[k], k, was, content, nextContentId);
      }
    }

    /** Hands every new blob to its author. */
    method StoreAll(newContent: seq<(nat, nat, nat)>, n0: nat)
      requires PlacedBelow(n0) && nextContentId == n0 + |newContent|
      requires Records(newContent, n0)
      modifies users`ownContent, users`ownContentSize
      ensures Valid()
    {
      var end := nextContentId;
      for id := n0 to end
        invariant PlacedBelow(id) && nextContentId == end
      {
        var made := newContent[id - n0];
        assert made.0 == id;
        StoreOwn(id, made);
      }
    }

    /** One user's views in a tick. */
    method ViewSome(i: nat)
      requires Valid() && i < |users| && nextContentId > 0
      modifies this`content, users`cache, users`cacheUsed
      ensures Valid() && content.Keys == old(content.Keys) && Carried(old(content), content)
    {
      var views :| 0 <= views;
      for w := 0 to views
        invariant Valid() && content.Keys == old(content.Keys) && Carried(old(content), content)
      {
        var id :| 0 <= id < nextContentId;
        View(i, id);
      }
    }

    method ViewAll()
      requires Valid() && nextContentId > 0
      modifies this`content, users`cache, users`cacheUsed
      ensures Valid() && content.Keys == old(content.Keys) && Carried(old(content), content)
    {
      for i := 0 to |users|
        invariant Valid() && content.Keys == old(content.Keys) && Carried(old(content), content)
      {
        if users[i].isOnline {
          ViewSome(i);
        }
      }
    }

    /** One tick: toggling, posting, storing and viewing leave every blob in place. */
    method SimulateTick(posts: nat)
      requires Valid()
      modifies this`currentTick, this`content, this`nextContentId, this`chainRecords, users
      ensures Valid() && currentTick == old(currentTick) + 1
      ensures old(nextContentId) <= nextContentId <= old(nextContentId) + posts
      ensures Carried(old(content), content) && AddedAt(old(content), content, currentTick)
    {
      currentTick := currentTick + 1;
      ToggleOnline();
      var n0 := nextContentId;
      var newContent := CreatePosts(posts);
      StoreAll(newContent, n0);
      if nextContentId == 0 {
        return;
      }
      ghost var posted := content;
      ViewAll();
      CarriedOn(old(content), posted, content, currentTick);
    }

    // ---------------------------------------------------------------- reports

    ghost function OwnStored(k: nat): nat
      requires k <= |users|
      reads this, users
    {
      if k == 0 then 0 else OwnStored(k - 1) + users[k - 1].ownContentSize
    }

    lemma {:induction false} OwnStoredIsOwnSums(k: nat)
      requires Valid() && k <= |users|
      ensures OwnStored(k) == OwnSums(content, k, nextContentId)
      decreases k
    {
      if k > 0 {
        OwnStoredIsOwnSums(k - 1);
        assert UserOk(users[k - 1], k - 1, content, nextContentId);
      }
    }

    /** What users report as own content is the size of all blobs, and every blob is held by its author. */
    lemma EveryBlobHasItsAuthor()
      requires Valid()
      ensures OwnStored(|users|) == AllSum(content, nextContentId)
      ensures forall id <- content :: users[content[id].author].HasContent(id)
    {
      OwnStoredIsOwnSums(|users|);
      OwnSumsAreAll(content, |users|, nextContentId);
      forall id <- content
        ensures users[content[id].author].HasContent(id)
      {
        assert UserOk(users[content[id].author], content[id].author, content, nextContentId);
        OwnSetIs(content, content[id].author, nextContentId);
      }
    }

    /** The peers among the first `k` that hold a blob, or that hold it and are on line. */
    ghost function Holders(id: nat, onlineOnly: bool, k: nat): set<nat>
      requires k <= |users|
      reads this, users
    {
      set i | 0 <= i < k && Serves(i, id, onlineOnly)
    }

    ghost predicate Serves(i: nat, id: nat, onlineOnly: bool)
      requires i < |users|
      reads this, users
    {
      users[i].HasContent(id) && (onlineOnly ==> users[i].isOnline)
    }

    lemma OneMoreHolder(id: nat, onlineOnly: bool, k: nat)
      requires k < |users|
      ensures |Holders(id, onlineOnly, k + 1)| == |Holders(id, onlineOnly, k)| + (if Serves(k, id, onlineOnly) then 1 else 0)
    {
      assert Holders(id, onlineOnly, k + 1) == Holders(id, onlineOnly, k) + (if Serves(k, id, onlineOnly) then {k} else {});
    }

    /** Counts the peers that hold a blob, and those of them on line. */
    method ContentAvailability(id: nat) returns (online: nat, total: nat)
      ensures total == |Holders(id, false, |users|)| && online == |Holders(id, true, |users|)|
    {
      online, total := 0, 0;
      for i := 0 to |users|
        invariant total == |Holders(id, false, i)| && online == |Holders(id, true, i)|
      {
        OneMoreHolder(id, false, i);
        OneMoreHolder(id, true, i);
        if users[i].HasContent(id) {
          total := total + 1;
          if users[i].isOnline {
            online := online + 1;
          }
        }
      }
    }

    ghost predicate IsAvailable(id: nat)
      reads this, users
    {
      exists i :: 0 <= i < |users| && Serves(i, id, true)
    }

    lemma AvailableIff(id: nat)
      ensures |Holders(id, true, |users|)| > 0 <==> IsAvailable(id)
    {
      if IsAvailable(id) {
        var i :| 0 <= i < |users| && Serves(i, id, true);
        assert i in Holders(id, true, |users|);
      } else {
        assert Holders(id, true, |users|) == {};
      }
    }

    // -------------------------------------------------- availability by age

    ghost function Available(): set<nat>
      reads this, users
    {
      set id | id in content && IsAvailable(id)
    }

    /** `order` lists every stored id once: the map's iteration order, whatever it is. */
    ghost predicate IsOrder(order: seq<nat>)
      reads this
    {
      && (forall i | 0 <= i < |order| :: order[i] in content)
      && (forall i, j | 0 <= i < j < |order| :: order[i] != order[j])
      && (forall id <- content :: id in order)
    }

    /** Whether some holder of a blob is on line. */
    method IsUp(id: nat) returns (here: bool)
      requires id in content
      ensures here == (id in Available())
    {
      var online, total := ContentAvailability(id);
      AvailableIff(id);
      here := online > 0;
    }

    /**
     The availability report: every blob is counted once, as available exactly
     when a holder is on line, and the age buckets add up to the same figures.
     */
    method AvailabilityAnalysis(order: seq<nat>) returns (r: Report)
      requires Numbered() && IsOrder(order)
      ensures r.available == |Available()| && r.available + r.unavailable == |content|
      ensures BucketsAre(r.byAge, content, currentTick, Available(), content.Keys)
      ensures Sum(r.byAge, currentTick / 24 + 1, true) == r.available
      ensures Sum(r.byAge, currentTick / 24 + 1, false) == |content|
      ensures r.totalViews == Views(content, order, |order|, content.Keys)
      ensures r.availableViews == Views(content, order, |order|, Available())
    {
      r := CountAll(order, Available());
      CountedIsExact(content, currentTick, order, |order|, Available());
      AllCounted(content, currentTick, order, Available(), r);
    }

    method CountAll(order: seq<nat>, ghost up: set<nat>) returns (r: Report)
      requires IsOrder(order) && up == Available()
      ensures r == Counted(content, currentTick, order, |order|, up)
    {
      r := Report(0, 0, 0, 0, map[]);
      for i := 0 to |order|
        invariant r == Counted(content, currentTick, order, i, up)
      {
        var here := IsUp(order[i]);
        r := CountBlob(content, currentTick, r, order[i], here);
      }
    }

    ghost function CacheSum(k: nat): nat
      requires k <= |users|
      reads this, users
    {
      if k == 0 then 0 else CacheSum(k - 1) + users[k - 1].cacheUsed
    }

    ghost function Storage(i: nat): nat
      requires i < |users|
      reads this, users
    {
      users[i].ownContentSize + users[i].cacheUsed
    }

    /** The storage report: own content adds up to the size of all blobs, and the extremes are attained. */
    method StorageAnalysis() returns (own: nat, cached: nat, least: nat, most: nat)
      requires Valid()
      ensures own == AllSum(content, nextContentId) && cached == CacheSum(|users|)
      ensures forall i | 0 <= i < |users| :: least <= Storage(i) <= most
      ensures least == MAX_U64 || exists i :: 0 <= i < |users| && Storage(i) == least
      ensures most == 0 || exists i :: 0 <= i < |users| && Storage(i) == most
    {
      own, cached, least, most := 0, 0, MAX_U64, 0;
      for i := 0 to |users|
        invariant own == OwnSums(content, i, nextContentId) && cached == CacheSum(i)
        invariant forall j | 0 <= j < i :: least <= Storage(j) <= most
        invariant least == MAX_U64 || exists j :: 0 <= j < i && Storage(j) == least
        invariant most == 0 || exists j :: 0 <= j < i && Storage(j) == most
      {
        var storage := users[i].ownContentSize + users[i].cacheUsed;
        assert storage == Storage(i);
        own := own + users[i].ownContentSize;
        cached := cached + users[i].cacheUsed;
        least := if storage < least then storage else least;
        most := if storage > most then storage else most;
      }
      OwnSumsAreAll(content, |users|, nextContentId);
    }
  }

  // ------------------------------------------------------------- age buckets

  type Buckets = map<nat, (nat, nat)>  // age in days to blobs available and blobs in all

  datatype Report = Report(available: nat, unavailable: nat, totalViews: nat, availableViews: nat, byAge: Buckets)

  function Age(c: Content, now: nat, id: nat): nat {
    if id in c && c[id].createdAt <= now then (now - c[id].createdAt) / 24 else 0
  }

  /** A stored blob's age is the whole days of twenty-four ticks since it was made. */
  lemma AgeInDays(c: Content, now: nat, id: nat)
    requires id in c && c[id].createdAt <= now
    ensures 24 * Age(c, now, id) <= now - c[id].createdAt < 24 * (Age(c, now, id) + 1)
  {
  }

  ghost function OfAge(c: Content, now: nat, s: set<nat>, b: nat): set<nat> {
    set id | id in s && Age(c, now, id) == b
  }

  /** Every bucket holds the exact number of blobs of its age, and of those available. */
  ghost predicate BucketsAre(byAge: Buckets, c: Content, now: nat, up: set<nat>, seen: set<nat>) {
    && (forall b <- byAge :: b <= now / 24 && byAge[b] == (|OfAge(c, now, seen * up, b)|, |OfAge(c, now, seen, b)|))
    && (forall id <- seen :: Age(c, now, id) in byAge)
  }

  /** The counters once the blobs `seen` have been counted, and the bucket sums that go with them. */
  ghost predicate CountsAre(up: set<nat>, seen: set<nat>, available: nat, unavailable: nat, byAge: Buckets, bound: nat) {
    && available == |seen * up| && available + unavailable == |seen|
    && Sum(byAge, bound, true) == available && Sum(byAge, bound, false) == |seen|
  }

  function Tally(c: Content, now: nat, byAge: Buckets, id: nat, here: bool): Buckets {
    var b := Age(c, now, id);
    var entry := if b in byAge then byAge[b] else (0, 0);
    byAge[b := (entry.0 + (if here then 1 else 0), entry.1 + 1)]
  }

  lemma OneMoreOfAge(c: Content, now: nat, seen: set<nat>, id: nat, b: nat)
    requires id !in seen
    ensures |OfAge(c, now, seen + {id}, b)| == |OfAge(c, now, seen, b)| + (if Age(c, now, id) == b then 1 else 0)
  {
    assert OfAge(c, now, seen + {id}, b) == OfAge(c, now, seen, b) + (if Age(c, now, id) == b then {id} else {});
  }

  lemma NoneOfAge(c: Content, now: nat, seen: set<nat>, b: nat)
    requires forall id <- seen :: Age(c, now, id) != b
    ensures OfAge(c, now, seen, b) == {}
  {
  }

  lemma NothingCounted(c: Content, now: nat, up: set<nat>)
    ensures CountsAre(up, {}, 0, 0, map[], now / 24 + 1) && BucketsAre(map[], c, now, up, {})
  {
    NoSum(now / 24 + 1);
    assert {} * up == {};
  }

  lemma AgeIsRecent(c: Content, now: nat, id: nat)
    ensures Age(c, now, id) <= now / 24
  {
  }

  /** The exact counts of bucket `b` after one more blob. */
  lemma TallyBucket(c: Content, now: nat, up: set<nat>, seen: set<nat>, byAge: Buckets, id: nat, b: nat)
    requires id !in seen && BucketsAre(byAge, c, now, up, seen) && b in Tally(c, now, byAge, id, id in up)
    ensures Tally(c, now, byAge, id, id in up)[b]
         == (|OfAge(c, now, (seen + {id}) * up, b)|, |OfAge(c, now, seen + {id}, b)|)
  {
    OneMoreOfAge(c, now, seen, id, b);
    if id in up {
      assert (seen + {id}) * up == seen * up + {id};
      OneMoreOfAge(c, now, seen * up, id, b);
    } else {
      assert (seen + {id}) * up == seen * up;
    }
    if b !in byAge {
      NoneOfAge(c, now, seen, b);
      NoneOfAge(c, now, seen * up, b);
    }
  }

  lemma TallyIsExact(c: Content, now: nat, up: set<nat>, seen: set<nat>, byAge: Buckets, id: nat)
    requires id !in seen && BucketsAre(byAge, c, now, up, seen)
    ensures BucketsAre(Tally(c, now, byAge, id, id in up), c, now, up, seen + {id})
  {
    AgeIsRecent(c, now, id);
    forall b <- Tally(c, now, byAge, id, id in up)
      ensures Tally(c, now, byAge, id, id in up)[b]
           == (|OfAge(c, now, (seen + {id}) * up, b)|, |OfAge(c, now, seen + {id}, b)|)
    {
      TallyBucket(c, now, up, seen, byAge, id, b);
    }
  }

  lemma TallySums(c: Content, now: nat, byAge: Buckets, id: nat, here: bool)
    ensures Sum(Tally(c, now, byAge, id, here), now / 24 + 1, true)
         == Sum(byAge, now / 24 + 1, true) + (if here then 1 else 0)
    ensures Sum(Tally(c, now, byAge, id, here), now / 24 + 1, false) == Sum(byAge, now / 24 + 1, false) + 1
  {
    var b := Age(c, now, id);
    AgeIsRecent(c, now, id);
    SumBump(byAge, b, Tally(c, now, byAge, id, here)[b], now / 24 + 1);
  }

  /** Counting one more blob keeps the counters exact. */
  lemma OneMoreCounted(c: Content, now: nat, up: set<nat>, seen: set<nat>, available: nat, unavailable: nat, byAge: Buckets, id: nat)
    requires id !in seen && CountsAre(up, seen, available, unavailable, byAge, now / 24 + 1)
    ensures CountsAre(up, seen + {id}, if id in up then available + 1 else available,
                      if id in up then unavailable else unavailable + 1, Tally(c, now, byAge, id, id in up), now / 24 + 1)
  {
    TallySums(c, now, byAge, id, id in up);
    assert (seen + {id}) * up == seen * up + (if id in up then {id} else {});
  }

  /** Counts one blob into the totals and its age bucket. */
  function CountBlob(c: Content, now: nat, r: Report, id: nat, here: bool): Report {
    var views := if id in c then c[id].views else 0;
    Report(if here then r.available + 1 else r.available, if here then r.unavailable else r.unavailable + 1,
           r.totalViews + views, if here then r.availableViews + views else r.availableViews,
           Tally(c, now, r.byAge, id, here))
  }

  ghost function Counted(c: Content, now: nat, order: seq<nat>, k: nat, up: set<nat>): Report
    requires k <= |order|
  {
    if k == 0 then Report(0, 0, 0, 0, map[])
    else CountBlob(c, now, Counted(c, now, order, k - 1, up), order[k - 1], order[k - 1] in up)
  }

  /** However the blobs are ordered, the counters and buckets are exact after every one of them. */
  lemma {:induction false} CountedIsExact(c: Content, now: nat, order: seq<nat>, k: nat, up: set<nat>)
    requires k <= |order| && forall i, j | 0 <= i < j < |order| :: order[i] != order[j]
    ensures Exact(c, now, Listed(order, k), up, Counted(c, now, order, k, up)) && ViewsAre(c, order, k, up, Counted(c, now, order, k, up))
    decreases k
  {
    if k == 0 {
      NothingCounted(c, now, up);
    } else {
      var n := k - 1;
      CountedIsExact(c, now, order, n, up);
      ListedIs(order, n);
      ExactOn(c, now, Listed(order, n), up, Counted(c, now, order, n, up), order[n]);
    }
  }

  /** The counters and buckets of the report, once the blobs `seen` have been counted. */
  ghost predicate Exact(c: Content, now: nat, seen: set<nat>, up: set<nat>, r: Report) {
    CountsAre(up, seen, r.available, r.unavailable, r.byAge, now / 24 + 1) && BucketsAre(r.byAge, c, now, up, seen)
  }

  /** The view totals of the report on the first `k` blobs of an order. */
  ghost predicate ViewsAre(c: Content, order: seq<nat>, k: nat, up: set<nat>, r: Report)
    requires k <= |order|
  {
    r.totalViews == Views(c, order, k, c.Keys) && r.availableViews == Views(c, order, k, up)
  }

  lemma ExactOn(c: Content, now: nat, seen: set<nat>, up: set<nat>, r: Report, id: nat)
    requires id !in seen && Exact(c, now, seen, up, r)
    ensures Exact(c, now, seen + {id}, up, CountBlob(c, now, r, id, id in up))
  {
    TallyIsExact(c, now, up, seen, r.byAge, id);
    OneMoreCounted(c, now, up, seen, r.available, r.unavailable, r.byAge, id);
  }

  lemma AllCounted(c: Content, now: nat, order: seq<nat>, up: set<nat>, r: Report)
    requires Exact(c, now, Listed(order, |order|), up, r) && up <= c.Keys
    requires (forall i | 0 <= i < |order| :: order[i] in c) && forall id <- c :: id in order
    ensures r.available == |up| && r.available + r.unavailable == |c| && BucketsAre(r.byAge, c, now, up, c.Keys)
    ensures Sum(r.byAge, now / 24 + 1, true) == r.available && Sum(r.byAge, now / 24 + 1, false) == |c|
  {
    ListedIs(order, |order|);
    assert Listed(order, |order|) == c.Keys;
    assert c.Keys * up == up;
  }

  /** Views of those of the first `k` blobs of an order that belong to `counted`. */
  ghost function Views(c: Content, order: seq<nat>, k: nat, counted: set<nat>): nat
    requires k <= |order|
  {
    if k == 0 then 0
    else Views(c, order, k - 1, counted) + (if order[k - 1] in c && order[k - 1] in counted then c[order[k - 1]].views else 0)
  }

  ghost function Listed(order: seq<nat>, k: nat): set<nat>
    requires k <= |order|
  {
    if k == 0 then {} else Listed(order, k - 1) + {order[k - 1]}
  }

  lemma {:induction false} ListedIs(order: seq<nat>, k: nat)
    requires k <= |order|
    ensures forall id :: id in Listed(order, k) <==> exists j :: 0 <= j < k && order[j] == id
    decreases k
  {
    if k > 0 {
      ListedIs(order, k - 1);
    }
  }

  const MAX_U64: nat := 0xFFFF_FFFF_FFFF_FFFF

  /** The available counts, or the totals, of the age buckets below `bound`. */
  ghost function Sum(m: map<nat, (nat, nat)>, bound: nat, available: bool): nat {
    if bound == 0 then 0
    else Sum(m, bound - 1, available)
         + (if bound - 1 in m then (if available then m[bound - 1].0 else m[bound - 1].1) else 0)
  }

  lemma {:induction false} NoSum(bound: nat)
    ensures Sum(map[], bound, true) == 0 && Sum(map[], bound, false) == 0
    decreases bound
  {
    if bound > 0 {
      NoSum(bound - 1);
    }
  }

  /** Changing one bucket changes the sums by exactly that bucket's change. */
  lemma {:induction false} SumBump(m: map<nat, (nat, nat)>, b: nat, v: (nat, nat), bound: nat)
    ensures Sum(m[b := v], bound, true)
         == Sum(m, bound, true) + (if b < bound then v.0 - (if b in m then m[b].0 else 0) else 0)
    ensures Sum(m[b := v], bound, false)
         == Sum(m, bound, false) + (if b < bound then v.1 - (if b in m then m[b].1 else 0) else 0)
    decreases bound
  {
    if bound > 0 {
      SumBump(m, b, v, bound - 1);
    }
  }
}

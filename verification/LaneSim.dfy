/**
 The lane simulation (simulations/extended_scenarios.rs): users post to and view
 only the lanes they follow. Random draws are arbitrary choices.
 */
module LaneSim {
  import opened Wrappers
  import opened PeerCache

  datatype LaneBlob = LaneBlob(id: nat, size: nat, lane: nat, createdAt: nat, views: nat)

  type LaneContent = map<nat, LaneBlob>
  type LaneIndex = map<nat, seq<nat>>

  // ------------------------------------------------------------ lane index

  /** A lane's list holds stored blobs of that lane, in creation order. */
  ghost predicate ListsOwn(c: LaneContent, lane: nat, ids: seq<nat>) {
    StrictlyRising(ids) && forall i | 0 <= i < |ids| :: ids[i] in c && c[ids[i]].lane == lane
  }

  /** Blobs are numbered without gaps and every one is listed in its lane. */
  ghost predicate IndexOk(c: LaneContent, lanes: LaneIndex, numLanes: nat, next: nat) {
    && (forall l: nat :: l in lanes <==> l < numLanes)
    && (forall id: nat :: id in c <==> id < next)
    && (forall l <- lanes :: ListsOwn(c, l, lanes[l]))
    && (forall id <- c :: c[id].id == id && c[id].lane in lanes && id in lanes[c[id].lane])
  }

  /** Every blob is in exactly one lane list, at exactly one place of it. */
  lemma OneLaneOnePlace(c: LaneContent, lanes: LaneIndex, numLanes: nat, next: nat, id: nat)
    requires IndexOk(c, lanes, numLanes, next) && id in c
    ensures exists i :: 0 <= i < |lanes[c[id].lane]| && lanes[c[id].lane][i] == id
    ensures forall l, i, j | l in lanes && 0 <= i < |lanes[l]| && 0 <= j < |lanes[c[id].lane]|
                             && lanes[l][i] == id && lanes[c[id].lane][j] == id :: l == c[id].lane && i == j
  {
    forall l, i, j | l in lanes && 0 <= i < |lanes[l]| && 0 <= j < |lanes[c[id].lane]|
                     && lanes[l][i] == id && lanes[c[id].lane][j] == id
      ensures l == c[id].lane && i == j
    {
      assert ListsOwn(c, l, lanes[l]);
    }
  }

  /** Filing a new blob under its lane keeps the index. */
  lemma FilingKeepsIndex(c: LaneContent, lanes: LaneIndex, numLanes: nat, next: nat, b: LaneBlob)
    requires IndexOk(c, lanes, numLanes, next) && b.id == next && b.lane < numLanes
    ensures IndexOk(c[next := b], lanes[b.lane := lanes[b.lane] + [next]], numLanes, next + 1)
  {
    var d, m := c[next := b], lanes[b.lane := lanes[b.lane] + [next]];
    forall l <- m
      ensures ListsOwn(d, l, m[l])
    {
      assert ListsOwn(c, l, lanes[l]);
    }
    forall id <- d
      ensures d[id].id == id && d[id].lane in m && id in m[d[id].lane]
    {
      if id == next {
        assert m[b.lane][|lanes[b.lane]|] == next;
      } else {
        assert id in lanes[c[id].lane];
        assert lanes[c[id].lane] <= m[c[id].lane];
      }
    }
  }

  /** Same blobs up to view counts. */
  ghost predicate SameBlobs(c: LaneContent, d: LaneContent) {
    && c.Keys == d.Keys
    && forall id <- c :: c[id].id == d[id].id && c[id].lane == d[id].lane && c[id].size == d[id].size
  }

  lemma ViewingKeepsIndex(c: LaneContent, d: LaneContent, lanes: LaneIndex, numLanes: nat, next: nat)
    requires IndexOk(c, lanes, numLanes, next) && SameBlobs(c, d)
    ensures IndexOk(d, lanes, numLanes, next)
  {
    forall l <- lanes
      ensures ListsOwn(d, l, lanes[l])
    {
      assert ListsOwn(c, l, lanes[l]);
    }
  }

  // ----------------------------------------------------------------- holders

  ghost predicate MayHold(c: LaneContent, lanes: set<nat>, n: nat, id: nat) {
    id < n && id in c && c[id].lane in lanes
  }

  /** Whatever a user holds, as author or in cache, belongs to a lane it follows. */
  ghost predicate Follows(u: UserNode, c: LaneContent, n: nat)
    reads u
  {
    && u.Valid()
    && (forall id <- u.ownContent :: MayHold(c, u.lanes, n, id))
    && (forall k | 0 <= k < |u.cache| :: MayHold(c, u.lanes, n, u.cache[k].0))
  }

  ghost predicate Keeps(c: LaneContent, d: LaneContent, n: nat) {
    forall id: nat | id < n && id in c :: id in d && d[id].lane == c[id].lane
  }

  lemma FollowsStill(u: UserNode, c: LaneContent, d: LaneContent, n: nat)
    requires Follows(u, c, n) && Keeps(c, d, n)
    ensures Follows(u, d, n)
  {
  }

  // --------------------------------------------------------- lane assignment

  /** The ids 0 up to `n`. */
  function UpTo(n: nat): (ids: set<nat>)
    ensures (forall l: nat :: l in ids <==> l < n) && |ids| == n
  {
    if n == 0 then {} else UpTo(n - 1) + {n - 1}
  }

  lemma {:induction false} SubsetSize(a: set<nat>, b: set<nat>)
    requires a <= b
    ensures |a| <= |b|
    decreases |a|
  {
    if a != {} {
      var x :| x in a;
      SubsetSize(a - {x}, b - {x});
    }
  }

  /** The lanes a user has joined after the loop has consumed a run of draws. */
  function Joined(draws: seq<nat>, perUser: nat): (lanes: set<nat>)
    ensures |lanes| <= perUser
    decreases |draws|
  {
    if draws == [] then {}
    else
      var before := Joined(draws[..|draws| - 1], perUser);
      if |before| < perUser && draws[|draws| - 1] !in before then before + {draws[|draws| - 1]} else before
  }

  ghost predicate Below(lanes: set<nat>, n: nat) {
    forall l <- lanes :: l < n
  }

  ghost predicate InRange(draws: seq<nat>, numLanes: nat) {
    forall i | 0 <= i < |draws| :: draws[i] < numLanes
  }

  lemma {:induction false} JoinedInRange(draws: seq<nat>, numLanes: nat, perUser: nat)
    requires InRange(draws, numLanes)
    ensures Below(Joined(draws, perUser), numLanes)
    decreases |draws|
  {
    if draws != [] {
      JoinedInRange(draws[..|draws| - 1], numLanes, perUser);
    }
  }

  function Counting(n: nat): (s: seq<nat>)
    ensures |s| == n && forall i | 0 <= i < n :: s[i] == i
  {
    if n == 0 then [] else Counting(n - 1) + [n - 1]
  }

  lemma {:induction false} CountingJoins(n: nat, perUser: nat)
    requires n <= perUser
    ensures Joined(Counting(n), perUser) == UpTo(n)
    decreases n
  {
    if n > 0 {
      var k := n - 1;
      CountingJoins(k, perUser);
      JoinNew(Counting(k), k, perUser);
    }
  }

  /** A lane not joined yet is joined while the quota lasts. */
  lemma JoinNew(draws: seq<nat>, lane: nat, perUser: nat)
    requires |Joined(draws, perUser)| < perUser && lane !in Joined(draws, perUser)
    ensures Joined(draws + [lane], perUser) == Joined(draws, perUser) + {lane}
  {
    assert (draws + [lane])[..|draws|] == draws;
  }

  /** The assignment loop can finish exactly when there are enough lanes to join. */
  lemma AssignmentFinishesIff(numLanes: nat, perUser: nat)
    ensures (exists draws :: InRange(draws, numLanes) && |Joined(draws, perUser)| == perUser) <==> perUser <= numLanes
  {
    if perUser <= numLanes {
      CountingJoins(perUser, perUser);
      assert InRange(Counting(perUser), numLanes);
    } else {
      forall draws | InRange(draws, numLanes)
        ensures |Joined(draws, perUser)| < perUser
      {
        JoinedInRange(draws, numLanes, perUser);
        assert Joined(draws, perUser) <= UpTo(numLanes);
        SubsetSize(Joined(draws, perUser), UpTo(numLanes));
      }
    }
  }

  // -------------------------------------------------------------- simulation

  class LaneSimulation {
    const numLanes: nat
    var users: seq<UserNode>
    var content: LaneContent
    var lanes: LaneIndex
    var nextContentId: nat
    var currentTick: nat

    ghost predicate UsersOk(n: nat)
      reads this, users
    {
      && (forall i, j | 0 <= i < j < |users| :: users[i] != users[j])
      && (forall i | 0 <= i < |users| :: Follows(users[i], content, n) && Below(users[i].lanes, numLanes))
    }

    ghost predicate Valid()
      reads this, users
    {
      IndexOk(content, lanes, numLanes, nextContentId) && UsersOk(nextContentId)
    }

    /** Each user joins lanes from its own run of draws; a run too short leaves the loop unfinished. */
    constructor (numLanes: nat, perUser: nat, cacheLimit: nat, draws: seq<seq<nat>>)
      requires forall i | 0 <= i < |draws| :: InRange(draws[i], numLanes)
      ensures Valid() && content == map[] && |users| == |draws| && fresh(users) && this.numLanes == numLanes
      ensures forall i | 0 <= i < |draws| :: users[i].lanes == Joined(draws[i], perUser)
    {
      var made := MakeUsers(numLanes, perUser, cacheLimit, draws);
      this.numLanes := numLanes;
      users := made;
      content, nextContentId, currentTick := map[], 0, 0;
      lanes := map l <- UpTo(numLanes) :: [];
    }

    static method MakeUsers(numLanes: nat, perUser: nat, cacheLimit: nat, draws: seq<seq<nat>>) returns (users: seq<UserNode>)
      requires forall i | 0 <= i < |draws| :: InRange(draws[i], numLanes)
      ensures |users| == |draws| && fresh(users) && (forall i, j | 0 <= i < j < |users| :: users[i] != users[j])
      ensures forall i | 0 <= i < |users| ::
                && Follows(users[i], map[], 0) && users[i].lanes == Joined(draws[i], perUser)
                && Below(users[i].lanes, numLanes)
    {
      users := [];
      while |users| < |draws|
        invariant |users| <= |draws| && fresh(users) && (forall i, j | 0 <= i < j < |users| :: users[i] != users[j])
        invariant forall i | 0 <= i < |users| ::
                    && Follows(users[i], map[], 0) && users[i].lanes == Joined(draws[i], perUser)
                    && Below(users[i].lanes, numLanes)
      {
        var u := new UserNode(|users|, cacheLimit);
        u.lanes := AssignLanes(draws[|users|], perUser);
        JoinedInRange(draws[|users|], numLanes, perUser);
        users := users + [u];
      }
    }

    /** The lane draw loop of one user, over the draws it makes. */
    static method AssignLanes(draws: seq<nat>, perUser: nat) returns (joined: set<nat>)
      ensures joined == Joined(draws, perUser)
    {
      joined := {};
      var taken := 0;
      for i := 0 to |draws|
        invariant joined == Joined(draws[..i], perUser) && taken == |joined|
      {
        assert draws[..i + 1][..i] == draws[..i];
        if taken < perUser && draws[i] !in joined {
          joined := joined + {draws[i]};
          taken := taken + 1;
        }
      }
      assert draws[..|draws|] == draws;
    }

    method ToggleOnline()
      modifies users`isOnline
      requires Valid()
      ensures Valid()
    {
      for i := 0 to |users|
        invariant Valid()
      {
        var online: bool := *;
        users[i].isOnline := online;
      }
    }

    /** One post: filed under a lane its author follows; the author does not hold it yet. */
    method Post(author: nat, lane: nat, size: nat, ghost n0: nat) returns (id: nat)
      requires IndexOk(content, lanes, numLanes, nextContentId) && n0 <= nextContentId && UsersOk(n0)
      requires author < |users| && lane in users[author].lanes
      modifies this`content, this`lanes, this`nextContentId
      ensures IndexOk(content, lanes, numLanes, nextContentId) && UsersOk(n0)
      ensures id == old(nextContentId) && nextContentId == id + 1
      ensures content == old(content)[id := LaneBlob(id, size, lane, currentTick, 0)]
    {
      id := nextContentId;
      var blob := LaneBlob(id, size, lane, currentTick, 0);
      FilingKeepsIndex(content, lanes, numLanes, id, blob);
      ghost var was := content;
      nextContentId := id + 1;
      content := content[id := blob];
      lanes := lanes[lane := lanes[lane] + [id]];
      forall i | 0 <= i < |users|
        ensures Follows(users[i], content, n0)
      {
        FollowsStill(users[i], was, content, n0);
      }
    }

    /** Posting and then storing: afterwards authors hold their posts. */
    method CreatePosts(posts: nat) returns (made: seq<(nat, nat, nat)>)
      requires Valid()
      modifies this`content, this`lanes, this`nextContentId
      ensures IndexOk(content, lanes, numLanes, nextContentId) && UsersOk(old(nextContentId))
      ensures nextContentId == old(nextContentId) + |made| && Keeps(old(content), content, old(nextContentId))
      ensures AllPostable(made, old(nextContentId))
    {
      made := [];
      for p := 0 to posts
        invariant IndexOk(content, lanes, numLanes, nextContentId) && UsersOk(old(nextContentId))
        invariant nextContentId == old(nextContentId) + |made| && Keeps(old(content), content, old(nextContentId))
        invariant AllPostable(made, old(nextContentId))
      {
        made := CreatePost(made, old(nextContentId));
      }
    }

    /** One draw of an author, who posts when on line and in some lane. */
    method CreatePost(made: seq<(nat, nat, nat)>, ghost n0: nat) returns (more: seq<(nat, nat, nat)>)
      requires IndexOk(content, lanes, numLanes, nextContentId) && UsersOk(n0)
      requires nextContentId == n0 + |made| && AllPostable(made, n0)
      modifies this`content, this`lanes, this`nextContentId
      ensures IndexOk(content, lanes, numLanes, nextContentId) && UsersOk(n0)
      ensures nextContentId == n0 + |more| && AllPostable(more, n0) && Keeps(old(content), content, n0)
    {
      more := made;
      var author :| -1 <= author < |users|;
      if author != -1 && users[author].isOnline && users[author].lanes != {} {
        var lane :| lane in users[author].lanes;
        var size :| 0 <= size;
        var id := Post(author, lane, size, n0);
        more := made + [(id, size, author)];
      }
    }

    /** A blob made this tick, with an author that follows its lane. */
    ghost predicate Postable(m: (nat, nat, nat), id: nat)
      reads this, users
    {
      m.0 == id && id in content && m.2 < |users| && content[id].lane in users[m.2].lanes
    }

    ghost predicate AllPostable(made: seq<(nat, nat, nat)>, n0: nat)
      reads this, users
    {
      forall j | 0 <= j < |made| :: Postable(made[j], n0 + j)
    }

    /** The authors of the first `k` new blobs hold them as their own. */
    ghost predicate AuthorsHold(made: seq<(nat, nat, nat)>, k: nat)
      reads this, users
    {
      k <= |made| && forall j | 0 <= j < k :: made[j].2 < |users| && made[j].0 in users[made[j].2].ownContent
    }

    method StoreOwn(m: (nat, nat, nat), id: nat)
      requires UsersOk(id) && Postable(m, id)
      modifies users`ownContent, users`ownContentSize
      ensures UsersOk(id + 1) && users[m.2].ownContent == old(users[m.2].ownContent) + {id}
      ensures users[m.2].ownContentSize == old(users[m.2].ownContentSize) + m.1
      ensures forall i | 0 <= i < |users| && i != m.2 :: users[i].ownContent == old(users[i].ownContent)
    {
      users[m.2].AddOwnContent(id, m.1);
    }

    /** Hands the next new blob to its author. */
    method StoreNext(made: seq<(nat, nat, nat)>, n0: nat, j: nat)
      requires j < |made| && UsersOk(n0 + j) && AllPostable(made, n0) && AuthorsHold(made, j)
      modifies users`ownContent, users`ownContentSize
      ensures UsersOk(n0 + j + 1) && AllPostable(made, n0) && AuthorsHold(made, j + 1)
    {
      assert Postable(made[j], n0 + j);
      StoreOwn(made[j], n0 + j);
      forall l | 0 <= l < |made|
        ensures Postable(made[l], n0 + l)
      {
        assert old(Postable(made[l], n0 + l));
      }
    }

    method StoreAll(made: seq<(nat, nat, nat)>, n0: nat)
      requires UsersOk(n0) && AllPostable(made, n0)
      modifies users`ownContent, users`ownContentSize
      ensures UsersOk(n0 + |made|) && AllPostable(made, n0) && AuthorsHold(made, |made|)
    {
      for j := 0 to |made|
        invariant UsersOk(n0 + j) && AllPostable(made, n0) && AuthorsHold(made, j)
      {
        StoreNext(made, n0, j);
      }
    }

    /** Caching a blob of a followed lane. */
    method Cache(i: nat, id: nat, size: nat)
      requires Valid() && i < |users| && MayHold(content, users[i].lanes, nextContentId, id)
      modifies users`cache, users`cacheUsed
      ensures Valid() && (size <= users[i].cacheLimit ==> users[i].HasContent(id))
    {
      assert Follows(users[i], content, nextContentId);
      var dropped := users[i].CacheContent(id, size);
      assert Follows(users[i], content, nextContentId);
    }

    /** One view: of the blob `k` places from the newest in a lane the user follows; media is cached, the view is counted. */
    method View(i: nat, lane: nat, k: nat)
      requires Valid() && i < |users| && lane in users[i].lanes && lane in lanes && k < |lanes[lane]|
      modifies this`content, users`cache, users`cacheUsed
      ensures Valid() && SameBlobs(old(content), content)
      ensures var id := lanes[lane][|lanes[lane]| - 1 - k];
              && id in old(content)
              && content == old(content)[id := old(content)[id].(views := old(content)[id].views + 1)]
              && (10_000 < old(content)[id].size <= users[i].cacheLimit ==> users[i].HasContent(id))
              && (old(content)[id].size <= 10_000 ==> users[i].cache == old(users[i].cache))
    {
      assert ListsOwn(content, lane, lanes[lane]);
      ViewBlob(i, lanes[lane][|lanes[lane]| - 1 - k]);
    }

    method ViewBlob(i: nat, id: nat)
      requires Valid() && i < |users| && id in content && content[id].lane in users[i].lanes
      modifies this`content, users`cache, users`cacheUsed
      ensures Valid() && SameBlobs(old(content), content)
      ensures content == old(content)[id := old(content)[id].(views := old(content)[id].views + 1)]
      ensures 10_000 < old(content)[id].size <= users[i].cacheLimit ==> users[i].HasContent(id)
      ensures old(content)[id].size <= 10_000 ==> users[i].cache == old(users[i].cache)
    {
      CacheMedia(i, id);
      CountView(id);
    }

    /** Only what is larger than ten kilobytes is kept. */
    method CacheMedia(i: nat, id: nat)
      requires Valid() && i < |users| && id in content && content[id].lane in users[i].lanes
      modifies users`cache, users`cacheUsed
      ensures Valid() && (10_000 < content[id].size <= users[i].cacheLimit ==> users[i].HasContent(id))
      ensures content[id].size <= 10_000 ==> users[i].cache == old(users[i].cache)
    {
      if content[id].size > 10_000 {
        Cache(i, id, content[id].size);
      }
    }

    method CountView(id: nat)
      requires Valid() && id in content
      modifies this`content
      ensures Valid() && SameBlobs(old(content), content)
      ensures content == old(content)[id := old(content)[id].(views := old(content)[id].views + 1)]
    {
      ghost var was := content;
      content := content[id := content[id].(views := content[id].views + 1)];
      ViewingKeepsIndex(was, content, lanes, numLanes, nextContentId);
      forall u | 0 <= u < |users|
        ensures Follows(users[u], content, nextContentId)
      {
        assert Follows(users[u], was, nextContentId);
        FollowsStill(users[u], was, content, nextContentId);
      }
    }

    method ViewSome(i: nat)
      requires Valid() && i < |users|
      modifies this`content, users`cache, users`cacheUsed
      ensures Valid() && SameBlobs(old(content), content)
    {
      var views :| 0 <= views;
      for w := 0 to views
        invariant Valid() && SameBlobs(old(content), content)
      {
        if users[i].lanes != {} {
          var lane :| lane in users[i].lanes;
          assert Below(users[i].lanes, numLanes);
          if lanes[lane] != [] {
            var k :| 0 <= k < |lanes[lane]|;
            View(i, lane, k);
          }
        }
      }
    }

    method ViewAll()
      requires Valid()
      modifies this`content, users`cache, users`cacheUsed
      ensures Valid() && SameBlobs(old(content), content)
    {
      for i := 0 to |users|
        invariant Valid() && SameBlobs(old(content), content)
      {
        if users[i].isOnline {
          ViewSome(i);
        }
      }
    }

    /** One tick keeps the index and keeps every holder within its lanes. */
    method SimulateTick(posts: nat)
      requires Valid()
      modifies this`currentTick, this`content, this`lanes, this`nextContentId, users
      ensures Valid() && currentTick == old(currentTick) + 1 && nextContentId >= old(nextContentId)
      ensures Keeps(old(content), content, old(nextContentId))
    {
      currentTick := currentTick + 1;
      ToggleOnline();
      var made := PostAll(posts);
      ViewAll();
    }

    /** Posting, then storing with the authors. */
    method PostAll(posts: nat) returns (made: seq<(nat, nat, nat)>)
      requires Valid()
      modifies this`content, this`lanes, this`nextContentId, users`ownContent, users`ownContentSize
      ensures Valid() && nextContentId == old(nextContentId) + |made| && Keeps(old(content), content, old(nextContentId))
      ensures AllPostable(made, old(nextContentId)) && AuthorsHold(made, |made|)
    {
      var n0 := nextContentId;
      made := CreatePosts(posts);
      StoreAll(made, n0);
    }

    /** In every valid state, a user holding a blob follows the blob's one lane. */
    lemma HoldersFollow(i: nat, id: nat)
      requires Valid() && i < |users| && users[i].HasContent(id)
      ensures id in content && content[id].lane in users[i].lanes && content[id].lane in lanes && id in lanes[content[id].lane]
    {
      assert Follows(users[i], content, nextContentId);
    }
  }
}

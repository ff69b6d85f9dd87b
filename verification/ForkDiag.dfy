/**
 The two read-only chain diagnostics: fork races with the actions they lost
 (examples/fork_diag.rs) and the shape of the stored chain (examples/chain_diag.rs).
 */
module ForkDiag {
  import opened Wrappers
  import opened ChainModel
  import opened ForkChoice
  import opened ForkTips

  datatype Action = Action(contentHash: Option<Hash>, signature: nat)

  /** A content hash has 32 bytes and a signature 64, so the two kinds of key never collide. */
  datatype Key = ContentKey(hash: Hash) | SignatureKey(signature: nat)

  datatype Store = Store(roots: Blocks, spaces: map<Hash, seq<Hash>>, contents: map<Hash, seq<Action>>,
                         tip: Option<Hash>)

  function ActionKey(a: Action): Key {
    match a.contentHash
    case Some(h) => ContentKey(h)
    case None => SignatureKey(a.signature)
  }

  /** One and the same action: by content hash where there is one, by signature where neither has one. */
  ghost predicate SameAction(a: Action, b: Action) {
    if a.contentHash.Some? then a.contentHash == b.contentHash
    else b.contentHash.None? && a.signature == b.signature
  }

  /** The key tells two actions apart exactly when they are not the same. */
  lemma KeysEqualIff(a: Action, b: Action)
    ensures ActionKey(a) == ActionKey(b) <==> SameAction(a, b)
  {
  }

  // ------------------------------------------------------------------ actions of a block

  ghost function ContentActions(s: Store, contents: seq<Hash>): seq<Action> {
    if contents == [] then []
    else ContentActions(s, contents[..|contents| - 1])
         + (var c := contents[|contents| - 1]; if c in s.contents then s.contents[c] else [])
  }

  ghost function SpaceActions(s: Store, spaces: seq<Hash>): seq<Action> {
    if spaces == [] then []
    else SpaceActions(s, spaces[..|spaces| - 1])
         + (var h := spaces[|spaces| - 1]; if h in s.spaces then ContentActions(s, s.spaces[h]) else [])
  }

  /** Some stored content block of some stored space block of `spaces` holds `a`. */
  ghost predicate Carries(s: Store, spaces: seq<Hash>, a: Action) {
    exists h, c :: h in spaces && h in s.spaces && c in s.spaces[h] && c in s.contents && a in s.contents[c]
  }

  lemma {:induction false} ContentActionsAre(s: Store, contents: seq<Hash>, a: Action)
    ensures a in ContentActions(s, contents) <==> exists c :: c in contents && c in s.contents && a in s.contents[c]
    decreases |contents|
  {
    if contents != [] {
      var n := |contents| - 1;
      ContentActionsAre(s, contents[..n], a);
      assert contents == contents[..n] + [contents[n]];
    }
  }

  /** A block's actions are those its stored space and content blocks hold. */
  lemma {:induction false} SpaceActionsAre(s: Store, spaces: seq<Hash>, a: Action)
    ensures a in SpaceActions(s, spaces) <==> Carries(s, spaces, a)
    decreases |spaces|
  {
    if spaces != [] {
      var n := |spaces| - 1;
      SpaceActionsAre(s, spaces[..n], a);
      assert spaces == spaces[..n] + [spaces[n]];
      if spaces[n] in s.spaces {
        ContentActionsAre(s, s.spaces[spaces[n]], a);
      }
    }
  }

  /** They are listed space block by space block. */
  lemma {:induction false} SpacesInOrder(s: Store, a: seq<Hash>, b: seq<Hash>)
    ensures SpaceActions(s, a + b) == SpaceActions(s, a) + SpaceActions(s, b)
    decreases |b|
  {
    if b == [] {
      assert a + b == a;
    } else {
      assert (a + b)[..|a + b| - 1] == a + b[..|b| - 1];
      SpacesInOrder(s, a, b[..|b| - 1]);
    }
  }

  /** And within each, content block by content block, as stored. */
  lemma {:induction false} ContentsInOrder(s: Store, h: Hash, before: seq<Hash>, c: Hash, after: seq<Hash>)
    requires h in s.spaces && s.spaces[h] == before + [c] + after && c in s.contents
    ensures SpaceActions(s, [h]) == ContentActions(s, before) + s.contents[c] + ContentActions(s, after)
  {
    assert [h][..0] == [] && SpaceActions(s, []) == [];
    ContentsAppend(s, before + [c], after);
    assert (before + [c])[..|before|] == before;
  }

  lemma {:induction false} ContentsAppend(s: Store, a: seq<Hash>, b: seq<Hash>)
    ensures ContentActions(s, a + b) == ContentActions(s, a) + ContentActions(s, b)
    decreases |b|
  {
    if b == [] {
      assert a + b == a;
    } else {
      assert (a + b)[..|a + b| - 1] == a + b[..|b| - 1];
      ContentsAppend(s, a, b[..|b| - 1]);
    }
  }

  method BlockActions(s: Store, root: RootBlock) returns (out: seq<Action>)
    ensures out == SpaceActions(s, root.spaces)
  {
    out := [];
    for i := 0 to |root.spaces|
      invariant out == SpaceActions(s, root.spaces[..i])
    {
      assert root.spaces[..i + 1][..i] == root.spaces[..i];
      if root.spaces[i] in s.spaces {
        var space := s.spaces[root.spaces[i]];
        ghost var before := out;
        for j := 0 to |space|
          invariant out == before + ContentActions(s, space[..j])
        {
          assert space[..j + 1][..j] == space[..j];
          if space[j] in s.contents {
            out := out + s.contents[space[j]];
          }
        }
        assert space[..|space|] == space;
      }
    }
    assert root.spaces[..|root.spaces|] == root.spaces;
  }

  // ------------------------------------------------------------------ the canonical walk

  /** Stored ancestors of the best tip, the tip included. */
  ghost predicate IsCanonical(s: Store, h: Hash)
    requires Linked(s.roots)
  {
    s.tip.Some? && h in s.roots && Descends(s.roots, s.tip.value, h)
  }

  ghost predicate OnCanonicalChain(s: Store, k: Key)
    requires Linked(s.roots)
  {
    exists h, i :: IsCanonical(s, h) && 0 <= i < |SpaceActions(s, s.roots[h].spaces)|
                   && ActionKey(SpaceActions(s, s.roots[h].spaces)[i]) == k
  }

  /** Some block of the canonical chain carries this action. */
  ghost predicate Reached(s: Store, a: Action)
    requires Linked(s.roots)
  {
    exists h, b :: IsCanonical(s, h) && Carries(s, s.roots[h].spaces, b) && SameAction(a, b)
  }

  lemma ReachedIff(s: Store, a: Action)
    requires Linked(s.roots)
    ensures OnCanonicalChain(s, ActionKey(a)) <==> Reached(s, a)
  {
    if OnCanonicalChain(s, ActionKey(a)) {
      var h, i :| IsCanonical(s, h) && 0 <= i < |SpaceActions(s, s.roots[h].spaces)|
                  && ActionKey(SpaceActions(s, s.roots[h].spaces)[i]) == ActionKey(a);
      var b := SpaceActions(s, s.roots[h].spaces)[i];
      SpaceActionsAre(s, s.roots[h].spaces, b);
      KeysEqualIff(a, b);
    }
    if Reached(s, a) {
      var h, b :| IsCanonical(s, h) && Carries(s, s.roots[h].spaces, b) && SameAction(a, b);
      SpaceActionsAre(s, s.roots[h].spaces, b);
      KeysEqualIff(a, b);
      var i :| 0 <= i < |SpaceActions(s, s.roots[h].spaces)| && SpaceActions(s, s.roots[h].spaces)[i] == b;
      assert HasKeyAt(s, h, i, ActionKey(a));
    }
  }

  ghost function Seen(s: Store, cursor: Option<Hash>, h: Hash): bool
    requires Linked(s.roots)
  {
    IsCanonical(s, h) && !(cursor.Some? && Descends(s.roots, cursor.value, h))
  }

  /** Walking the parent pointers from the tip collects exactly the stored ancestors and their action keys. */
  method CanonicalWalk(s: Store) returns (hashes: set<Hash>, keys: set<Key>)
    requires Linked(s.roots)
    ensures forall h :: h in hashes <==> IsCanonical(s, h)
    ensures forall k :: k in keys <==> OnCanonicalChain(s, k)
  {
    hashes, keys := {}, {};
    var cursor := s.tip;
    ghost var from: map<Key, (Hash, nat)> := map[];
    while cursor.Some?
      invariant cursor.Some? ==> s.tip.Some? && Descends(s.roots, s.tip.value, cursor.value)
      invariant forall h :: h in hashes <==> Seen(s, cursor, h)
      invariant forall k <- keys :: k in from && from[k].0 in hashes && HasKeyAt(s, from[k].0, from[k].1, k)
      invariant forall h, i | h in hashes && 0 <= i < |SpaceActions(s, s.roots[h].spaces)| ::
                  ActionKey(SpaceActions(s, s.roots[h].spaces)[i]) in keys
      decreases if cursor.Some? then Rank(s.roots, cursor.value) + 1 else 0
    {
      var h := cursor.value;
      if h !in s.roots {
        NothingBelow(s, h);
        break;
      }
      var block := s.roots[h];
      var actions := BlockActions(s, block);
      WalkStep(s, h);
      hashes := hashes + {h};
      ghost var keys0, from0 := keys, from;
      for i := 0 to |actions|
        invariant forall k <- keys :: k in from && (k in keys0 || from[k].0 == h) && from[k].0 in hashes && HasKeyAt(s, from[k].0, from[k].1, k)
        invariant keys0 <= keys && forall j | 0 <= j < i :: ActionKey(actions[j]) in keys
      {
        keys, from := keys + {ActionKey(actions[i])}, from[ActionKey(actions[i]) := (h, i)];
      }
      if block.prev == ZERO {
        NothingBelow(s, ZERO);
        cursor := None;
        break;
      }
      cursor := Some(block.prev);
    }
  }

  ghost predicate HasKeyAt(s: Store, h: Hash, i: nat, k: Key)
    requires Linked(s.roots)
  {
    h in s.roots && i < |SpaceActions(s, s.roots[h].spaces)| && ActionKey(SpaceActions(s, s.roots[h].spaces)[i]) == k
  }

  lemma NothingBelow(s: Store, h: Hash)
    requires Linked(s.roots) && h !in s.roots
    ensures forall x <- s.roots :: !Descends(s.roots, h, x)
  {
  }

  /** Heights fall strictly along the ancestry, so no proper ancestor is the block itself. */
  lemma {:induction false} DescendsHeights(m: Blocks, d: Hash, h: Hash)
    requires Linked(m) && d in m && h in m && Descends(m, d, h)
    ensures m[h].height <= m[d].height && (m[h].height == m[d].height ==> h == d)
    decreases Rank(m, d)
  {
    if d != h {
      DescendsHeights(m, m[d].prev, h);
    }
  }

  lemma {:induction false} DescendsTransitive(m: Blocks, a: Hash, b: Hash, c: Hash)
    requires Linked(m) && Descends(m, a, b) && Descends(m, b, c)
    ensures Descends(m, a, c)
    decreases Rank(m, a)
  {
    if a != b {
      DescendsTransitive(m, m[a].prev, b, c);
    }
  }

  lemma WalkStep(s: Store, h: Hash)
    requires Linked(s.roots) && h in s.roots && s.tip.Some? && Descends(s.roots, s.tip.value, h)
    ensures forall x :: Descends(s.roots, h, x) <==> x == h || Descends(s.roots, s.roots[h].prev, x)
    ensures !Descends(s.roots, s.roots[h].prev, h)
    ensures Descends(s.roots, s.tip.value, s.roots[h].prev)
  {
    var m := s.roots;
    if m[h].prev in m && Descends(m, m[h].prev, h) {
      DescendsHeights(m, m[h].prev, h);
    }
    DescendsTransitive(m, s.tip.value, h, m[h].prev);
  }

  /** Two ancestors of one tip at one height are one block: at most one competitor per height is CANONICAL. */
  lemma {:induction false} OneAncestorPerHeight(m: Blocks, t: Hash, a: Hash, b: Hash)
    requires Linked(m) && t in m && a in m && b in m
    requires Descends(m, t, a) && Descends(m, t, b) && m[a].height == m[b].height
    ensures a == b
    decreases Rank(m, t)
  {
    DescendsHeights(m, t, a);
    DescendsHeights(m, t, b);
    if t != a && t != b {
      OneAncestorPerHeight(m, m[t].prev, a, b);
    }
  }

  lemma {:induction false} AncestorIsIndexed(m: Blocks, t: Hash, h: Hash)
    requires Linked(m) && t in m && h in m
    ensures Descends(m, t, h) <==> m[h].height in IndexOf(m, t) && IndexOf(m, t)[m[h].height] == h
    decreases Rank(m, t)
  {
    if m[t].prev in m {
      AncestorIsIndexed(m, m[t].prev, h);
      IndexDomain(m, m[t].prev);
      if Descends(m, m[t].prev, h) {
        DescendsHeights(m, m[t].prev, h);
      }
      BaseIsLow(m, m[t].prev);
    }
  }

  /** On a store the node keeps coherent, the walked chain is the height index. */
  lemma WalkAgreesWithIndex(c: Chain, s: Store, h: Hash)
    requires Canonical(c) && s.roots == c.blocks && s.tip == c.tip && h in c.blocks
    ensures IsCanonical(s, h) <==> OnChain(c, h)
  {
    if c.tip.Some? {
      AncestorIsIndexed(c.blocks, c.tip.value, h);
    }
  }

  // ------------------------------------------------------------------ grouping by height

  ghost function AtHeight(m: Blocks, k: nat): set<Hash> {
    set h | h in m && m[h].height == k
  }

  /** `groups` lists each block of `done` once, under its own height, and has no empty entry. */
  ghost predicate Grouped(m: Blocks, done: set<Hash>, groups: map<nat, seq<RootBlock>>) {
    && (forall h <- done :: h in m && m[h].height in groups && m[h] in groups[m[h].height])
    && (forall k <- groups :: groups[k] != []
          && (forall i | 0 <= i < |groups[k]| :: groups[k][i].hash in done && groups[k][i].hash in m && m[groups[k][i].hash] == groups[k][i]
                                             && groups[k][i].height == k)
          && (forall i, j | 0 <= i < j < |groups[k]| :: groups[k][i].hash != groups[k][j].hash))
  }

  method GroupByHeight(m: Blocks) returns (groups: map<nat, seq<RootBlock>>)
    requires Linked(m)
    ensures Grouped(m, m.Keys, groups)
  {
    groups := map[];
    var todo, done: set<Hash> := m.Keys, {};
    while todo != {}
      invariant todo + done == m.Keys && todo !! done
      invariant Grouped(m, done, groups)
      decreases todo
    {
      var h :| h in todo;
      todo, done := todo - {h}, done + {h};
      var block := m[h];
      groups := groups[block.height := (if block.height in groups then groups[block.height] else []) + [block]];
    }
  }

  ghost function Hashes(blocks: seq<RootBlock>): set<Hash> {
    set i | 0 <= i < |blocks| :: blocks[i].hash
  }

  lemma {:induction false} HashesCount(blocks: seq<RootBlock>)
    requires forall i, j | 0 <= i < j < |blocks| :: blocks[i].hash != blocks[j].hash
    ensures |Hashes(blocks)| == |blocks|
  {
    if blocks == [] {
      assert Hashes(blocks) == {};
    } else {
      var n := |blocks| - 1;
      HashesCount(blocks[..n]);
      assert forall i | 0 <= i < n :: blocks[..n][i] == blocks[i];
      assert blocks[n].hash !in Hashes(blocks[..n]);
      assert Hashes(blocks) == Hashes(blocks[..n]) + {blocks[n].hash} by {
        forall i | 0 <= i < |blocks|
          ensures blocks[i].hash in Hashes(blocks[..n]) + {blocks[n].hash}
        {
          if i < n {
            assert blocks[..n][i].hash in Hashes(blocks[..n]);
          }
        }
      }
    }
  }

  /** A height's list is all of its stored blocks. */
  lemma GroupIsHeight(m: Blocks, groups: map<nat, seq<RootBlock>>, k: nat)
    requires Linked(m) && Grouped(m, m.Keys, groups)
    ensures k in groups <==> AtHeight(m, k) != {}
    ensures k in groups ==> |groups[k]| == |AtHeight(m, k)|
  {
    if k in groups {
      HashesCount(groups[k]);
      assert groups[k][0].hash in AtHeight(m, k);
      forall h <- AtHeight(m, k)
        ensures h in Hashes(groups[k])
      {
        var i :| 0 <= i < |groups[k]| && groups[k][i] == m[h];
        assert groups[k][i].hash == h;
      }
      assert Hashes(groups[k]) == AtHeight(m, k);
    }
  }

  // ------------------------------------------------------------------ chain_diag

  function Count(counts: map<nat, nat>, k: nat): nat {
    if k in counts then counts[k] else 0
  }

  ghost function HeightSum(counts: map<nat, nat>, top: nat): nat {
    Count(counts, top) + (if top == 0 then 0 else HeightSum(counts, top - 1))
  }

  lemma {:induction false} HeightSumAdd(counts: map<nat, nat>, k: nat, top: nat)
    ensures HeightSum(counts[k := Count(counts, k) + 1], top) == HeightSum(counts, top) + (if k <= top then 1 else 0)
  {
    if top > 0 {
      HeightSumAdd(counts, k, top - 1);
    }
  }

  lemma {:induction false} HeightSumHigher(counts: map<nat, nat>, lo: nat, hi: nat)
    requires lo <= hi && forall k: nat | k > lo :: Count(counts, k) == 0
    ensures HeightSum(counts, hi) == HeightSum(counts, lo)
    decreases hi
  {
    if lo < hi {
      HeightSumHigher(counts, lo, hi - 1);
    }
  }

  /** Each height's tally is the number of blocks stored at it, and no tally is zero. */
  ghost predicate CountsRight(done: Blocks, counts: map<nat, nat>) {
    && (forall k: nat :: Count(counts, k) == |AtHeight(done, k)|)
    && (forall k <- counts :: counts[k] > 0)
  }

  /** `top` is the greatest declared height, zero when there is none. */
  ghost predicate IsTop(done: Blocks, top: nat) {
    && (forall h <- done :: done[h].height <= top)
    && (top == 0 || exists h :: h in done && done[h].height == top)
  }

  lemma CountOne(done: Blocks, counts: map<nat, nat>, h: Hash, b: RootBlock)
    requires CountsRight(done, counts) && h !in done
    ensures CountsRight(done[h := b], counts[b.height := Count(counts, b.height) + 1])
  {
    AtHeightAdd(done, h, b);
    var next := counts[b.height := Count(counts, b.height) + 1];
    forall k: nat
      ensures Count(next, k) == |AtHeight(done[h := b], k)|
    {
      assert Count(counts, k) == |AtHeight(done, k)|;
      assert AtHeight(done[h := b], k) == (if k == b.height then AtHeight(done, k) + {h} else AtHeight(done, k));
    }
  }

  lemma TopOne(done: Blocks, top: nat, h: Hash, b: RootBlock)
    requires IsTop(done, top) && h !in done
    ensures IsTop(done[h := b], if b.height > top then b.height else top)
  {
    var next := done[h := b];
    if b.height > top {
      assert next[h].height == b.height;
    } else if top > 0 {
      var x :| x in done && done[x].height == top;
      assert x in next && next[x].height == top;
    }
  }

  lemma NoneAbove(done: Blocks, counts: map<nat, nat>, top: nat)
    requires CountsRight(done, counts) && IsTop(done, top)
    ensures forall k: nat | k > top :: Count(counts, k) == 0
  {
    forall k: nat | k > top
      ensures Count(counts, k) == 0
    {
      assert AtHeight(done, k) == {};
    }
  }

  lemma OneMoreBlock(done: Blocks, counts: map<nat, nat>, top: nat, h: Hash, b: RootBlock)
    requires CountsRight(done, counts) && IsTop(done, top) && h !in done
    ensures var next, newTop := counts[b.height := Count(counts, b.height) + 1], if b.height > top then b.height else top;
            && CountsRight(done[h := b], next) && IsTop(done[h := b], newTop)
            && HeightSum(next, newTop) == HeightSum(counts, top) + 1
  {
    var newTop := if b.height > top then b.height else top;
    NoneAbove(done, counts, top);
    HeightSumHigher(counts, top, newTop);
    HeightSumAdd(counts, b.height, newTop);
    CountOne(done, counts, h, b);
    TopOne(done, top, h, b);
  }

  /** The scan counts every stored block once: per height, in total, and with the greatest declared height. */
  method CountHeights(m: Blocks) returns (counts: map<nat, nat>, maxDeclared: nat, total: nat)
    ensures CountsRight(m, counts) && IsTop(m, maxDeclared)
    ensures total == |m| && HeightSum(counts, maxDeclared) == total
  {
    counts, maxDeclared, total := map[], 0, 0;
    var todo := m.Keys;
    ghost var done: Blocks := map[];
    while todo != {}
      invariant done.Keys == m.Keys - todo && todo <= m.Keys
      invariant forall h <- done :: done[h] == m[h]
      invariant CountsRight(done, counts) && IsTop(done, maxDeclared)
      invariant total + |todo| == |m| && HeightSum(counts, maxDeclared) == total
      decreases todo
    {
      var h :| h in todo;
      todo := todo - {h};
      var k := m[h].height;
      var newMax := if k > maxDeclared then k else maxDeclared;
      OneMoreBlock(done, counts, maxDeclared, h, m[h]);
      counts := counts[k := Count(counts, k) + 1];
      maxDeclared, total := newMax, total + 1;
      done := done[h := m[h]];
    }
    assert done == m;
  }

  /** The tool's verdict that the height index is truncated. */
  predicate SaysTruncated(latest: Option<nat>, maxDeclared: nat) {
    latest.Some? && maxDeclared > latest.value
  }

  /** On a store the node keeps coherent the verdict fires exactly when some stored block lies above the best tip. */
  lemma TruncatedIff(c: Chain, latest: Option<nat>, maxDeclared: nat)
    requires Indexed(c) && IsTop(c.blocks, maxDeclared)
    requires latest.None? ==> c.index == map[]
    requires latest.Some? ==> latest.value in c.index && forall k <- c.index :: k <= latest.value
    ensures SaysTruncated(latest, maxDeclared) <==>
            c.tip.Some? && exists h :: h in c.blocks && c.blocks[h].height > c.blocks[c.tip.value].height
  {
    if c.tip.Some? {
      assert latest == Some(c.blocks[c.tip.value].height);
    }
  }

  /** Two blocks on 1, then a heavier single one: the index is exactly the heaviest chain, and the tool calls it truncated. */
  lemma FalseAlarmWitness()
    ensures var m := map[1 := RootBlock(1, ZERO, 0, 0, 0, []), 2 := RootBlock(2, 1, 1, 1, 0, []),
                         3 := RootBlock(3, 2, 2, 1, 0, []), 4 := RootBlock(4, 1, 1, 9, 0, [])];
            var c := Chain(m, map[0 := 1, 1 := 4], Some(4));
            Canonical(c) && Heaviest(c) && IsTop(m, 2) && SaysTruncated(Some(1), 2)
  {
    var m := map[1 := RootBlock(1, ZERO, 0, 0, 0, []), 2 := RootBlock(2, 1, 1, 1, 0, []),
                 3 := RootBlock(3, 2, 2, 1, 0, []), 4 := RootBlock(4, 1, 1, 9, 0, [])];
    assert Linked(m);
    assert WeightAt(m, 1) == Some(0);
    assert WeightAt(m, 2) == Some(1) && WeightAt(m, 4) == Some(9);
    assert WeightAt(m, 3) == Some(2);
    assert IndexOf(m, ZERO) == map[];
    assert IndexOf(m, 1) == map[0 := 1];
    assert m[3].height == 2;
  }

  lemma AtHeightAdd(m: Blocks, h: Hash, b: RootBlock)
    requires h !in m
    ensures forall k: nat :: AtHeight(m[h := b], k) == (if k == b.height then AtHeight(m, k) + {h} else AtHeight(m, k))
    ensures |AtHeight(m[h := b], b.height)| == |AtHeight(m, b.height)| + 1
  {
    forall k: nat
      ensures AtHeight(m[h := b], k) == (if k == b.height then AtHeight(m, k) + {h} else AtHeight(m, k))
    {
    }
    assert h !in AtHeight(m, b.height);
  }

  /** Without a height filter the two tools report the same contested heights. */
  lemma ContestedAgree(m: Blocks, groups: map<nat, seq<RootBlock>>, counts: map<nat, nat>, k: nat)
    requires Linked(m) && Grouped(m, m.Keys, groups)
    requires CountsRight(m, counts)
    ensures k in groups && |groups[k]| > 1 <==> k in counts && counts[k] > 1
  {
    GroupIsHeight(m, groups, k);
  }

  // ------------------------------------------------------------------ ties

  ghost predicate Tied(blocks: seq<RootBlock>) {
    exists i, j :: 0 <= i < j < |blocks| && blocks[i].cumulativePow == blocks[j].cumulativePow
  }

  /** Counting distinct work values finds exactly the ties. */
  method IsTied(blocks: seq<RootBlock>) returns (tied: bool)
    ensures tied <==> Tied(blocks)
  {
    var pows: set<nat> := {};
    for i := 0 to |blocks|
      invariant forall p :: p in pows <==> exists j :: 0 <= j < i && blocks[j].cumulativePow == p
      invariant |pows| <= i
      invariant |pows| < i <==> exists j, l :: 0 <= j < l < i && blocks[j].cumulativePow == blocks[l].cumulativePow
    {
      pows := pows + {blocks[i].cumulativePow};
    }
    tied := |pows| < |blocks|;
  }

  // ------------------------------------------------------------------ the report

  /** Heights with more than one stored block, narrowed to one height on request. */
  ghost predicate IsContested(m: Blocks, only: Option<nat>, k: nat) {
    |AtHeight(m, k)| > 1 && (only.None? || only.value == k)
  }

  /** Action `i` of block `h` is no action of the canonical chain. */
  ghost predicate IsLost(s: Store, h: Hash, i: nat)
    requires Linked(s.roots)
  {
    && h in s.roots && i < |SpaceActions(s, s.roots[h].spaces)|
    && !IsCanonical(s, h)
    && !Reached(s, SpaceActions(s, s.roots[h].spaces)[i])
  }

  /** `lost` lists once each the lost actions of the blocks in `done`. */
  ghost predicate LostListed(s: Store, done: set<Hash>, lost: seq<(Hash, nat)>)
    requires Linked(s.roots)
  {
    && Distinct(lost)
    && (forall x <- lost :: x.0 in done && IsLost(s, x.0, x.1))
    && (forall h: Hash, i: nat | h in done && IsLost(s, h, i) :: (h, i) in lost)
  }

  /** One block's lines: its lost actions are appended, in order. */
  method ScanBlock(s: Store, b: RootBlock, hashes: set<Hash>, keys: set<Key>, ghost done: set<Hash>, before: seq<(Hash, nat)>)
    returns (lost: seq<(Hash, nat)>)
    requires Linked(s.roots) && b.hash in s.roots && s.roots[b.hash] == b && b.hash !in done
    requires forall h :: h in hashes <==> IsCanonical(s, h)
    requires forall k :: k in keys <==> OnCanonicalChain(s, k)
    requires LostListed(s, done, before)
    ensures LostListed(s, done + {b.hash}, lost)
  {
    lost := before;
    var canon := b.hash in hashes;
    var actions := BlockActions(s, b);
    for i := 0 to |actions|
      invariant Distinct(lost)
      invariant forall x <- lost :: (x in before || (x.0 == b.hash && x.1 < i)) && IsLost(s, x.0, x.1)
      invariant forall x <- before :: x in lost
      invariant forall j | 0 <= j < i :: IsLost(s, b.hash, j) ==> (b.hash, j) in lost
    {
      var onCanon := ActionKey(actions[i]) in keys;
      ReachedIff(s, actions[i]);
      if !canon && !onCanon {
        lost := lost + [(b.hash, i)];
      }
    }
  }

  ghost function BlocksAt(m: Blocks, ks: seq<nat>): set<Hash> {
    set h | h in m && m[h].height in ks
  }

  ghost function TiedAt(m: Blocks, ks: seq<nat>): set<nat> {
    set k | k in ks && HeightTied(m, k)
  }

  lemma OneMoreHeight(m: Blocks, ks: seq<nat>, k: nat)
    requires k !in ks
    ensures BlocksAt(m, ks + [k]) == BlocksAt(m, ks) + AtHeight(m, k)
    ensures BlocksAt(m, ks) !! AtHeight(m, k)
  {
  }

  lemma OneMoreTie(m: Blocks, ks: seq<nat>, k: nat)
    requires k !in ks
    ensures |TiedAt(m, ks + [k])| == |TiedAt(m, ks)| + (if HeightTied(m, k) then 1 else 0)
  {
    assert TiedAt(m, ks + [k]) == TiedAt(m, ks) + (if HeightTied(m, k) then {k} else {});
    assert k !in TiedAt(m, ks);
  }

  lemma PrefixStep(ks: seq<nat>, i: nat)
    requires Distinct(ks) && i < |ks|
    ensures ks[..i + 1] == ks[..i] + [ks[i]] && ks[i] !in ks[..i]
  {
  }

  /** One contested height: is it tied, and which of its blocks' actions are lost. */
  method DiagnoseHeight(s: Store, groups: map<nat, seq<RootBlock>>, k: nat, hashes: set<Hash>, keys: set<Key>,
                        ghost ks: seq<nat>, before: seq<(Hash, nat)>) returns (tied: bool, lost: seq<(Hash, nat)>)
    requires Linked(s.roots) && Grouped(s.roots, s.roots.Keys, groups) && k in groups && k !in ks
    requires forall h :: h in hashes <==> IsCanonical(s, h)
    requires forall k :: k in keys <==> OnCanonicalChain(s, k)
    requires LostListed(s, BlocksAt(s.roots, ks), before)
    ensures tied <==> HeightTied(s.roots, k)
    ensures LostListed(s, BlocksAt(s.roots, ks + [k]), lost)
  {
    OneMoreHeight(s.roots, ks, k);
    GroupHashes(s.roots, groups, k);
    TieIsHeightTie(s.roots, groups, k);
    tied := IsTied(groups[k]);
    forall j | 0 <= j < |groups[k]|
      ensures groups[k][j].hash !in BlocksAt(s.roots, ks)
    {
      assert groups[k][j].hash in AtHeight(s.roots, k);
    }
    lost := ScanHeight(s, groups[k], hashes, keys, BlocksAt(s.roots, ks), before);
  }

  /**
   The whole fork report: contested heights in order, how many of them hold a
   tie, and the list of lost actions, each once.
   */
  method Diagnose(s: Store, only: Option<nat>) returns (contested: seq<nat>, ties: nat, lost: seq<(Hash, nat)>)
    requires Linked(s.roots)
    ensures forall i, j | 0 <= i < j < |contested| :: contested[i] < contested[j]
    ensures forall k: nat :: k in contested <==> IsContested(s.roots, only, k)
    ensures ties == |TiedAt(s.roots, contested)|
    ensures LostListed(s, BlocksAt(s.roots, contested), lost)
  {
    var hashes, keys := CanonicalWalk(s);
    var groups := GroupByHeight(s.roots);
    contested := SortedContested(s.roots, groups, only);
    forall k <- contested
      ensures k in groups
    {
      assert IsContested(s.roots, only, k);
      GroupIsHeight(s.roots, groups, k);
    }
    ties, lost := DiagnoseAll(s, groups, contested, hashes, keys);
  }

  method DiagnoseAll(s: Store, groups: map<nat, seq<RootBlock>>, contested: seq<nat>, hashes: set<Hash>, keys: set<Key>)
    returns (ties: nat, lost: seq<(Hash, nat)>)
    requires Linked(s.roots) && Grouped(s.roots, s.roots.Keys, groups)
    requires Distinct(contested) && forall k <- contested :: k in groups
    requires forall h :: h in hashes <==> IsCanonical(s, h)
    requires forall k :: k in keys <==> OnCanonicalChain(s, k)
    ensures ties == |TiedAt(s.roots, contested)|
    ensures LostListed(s, BlocksAt(s.roots, contested), lost)
  {
    ties, lost := 0, [];
    assert TiedAt(s.roots, contested[..0]) == {} && BlocksAt(s.roots, contested[..0]) == {};
    for i := 0 to |contested|
      invariant LostListed(s, BlocksAt(s.roots, contested[..i]), lost)
      invariant ties == |TiedAt(s.roots, contested[..i])|
    {
      PrefixStep(contested, i);
      OneMoreTie(s.roots, contested[..i], contested[i]);
      var tied;
      tied, lost := DiagnoseHeight(s, groups, contested[i], hashes, keys, contested[..i], lost);
      if tied {
        ties := ties + 1;
      }
    }
    assert contested[..|contested|] == contested;
  }

  /** Two different stored blocks of height `k` claim the same cumulative work. */
  ghost predicate HeightTied(m: Blocks, k: nat) {
    exists a, b :: a in AtHeight(m, k) && b in AtHeight(m, k) && a != b && m[a].cumulativePow == m[b].cumulativePow
  }

  lemma GroupHashes(m: Blocks, groups: map<nat, seq<RootBlock>>, k: nat)
    requires Linked(m) && Grouped(m, m.Keys, groups) && k in groups
    ensures Hashes(groups[k]) == AtHeight(m, k)
  {
    forall h <- AtHeight(m, k)
      ensures h in Hashes(groups[k])
    {
      var i :| 0 <= i < |groups[k]| && groups[k][i] == m[h];
      assert groups[k][i].hash == h;
    }
  }

  lemma TieIsHeightTie(m: Blocks, groups: map<nat, seq<RootBlock>>, k: nat)
    requires Linked(m) && Grouped(m, m.Keys, groups) && k in groups
    ensures Tied(groups[k]) <==> HeightTied(m, k)
  {
    var blocks := groups[k];
    if Tied(blocks) {
      var i, j :| 0 <= i < j < |blocks| && blocks[i].cumulativePow == blocks[j].cumulativePow;
      assert blocks[i].hash in AtHeight(m, k) && blocks[j].hash in AtHeight(m, k);
    }
    if HeightTied(m, k) {
      var a, b :| a in AtHeight(m, k) && b in AtHeight(m, k) && a != b && m[a].cumulativePow == m[b].cumulativePow;
      PairIsTied(m, blocks, m[a], m[b]);
    }
  }

  lemma PairIsTied(m: Blocks, blocks: seq<RootBlock>, x: RootBlock, y: RootBlock)
    requires x in blocks && y in blocks && x != y && x.cumulativePow == y.cumulativePow
    ensures Tied(blocks)
  {
    var i :| 0 <= i < |blocks| && blocks[i] == x;
    var j :| 0 <= j < |blocks| && blocks[j] == y;
  }

  method ScanHeight(s: Store, blocks: seq<RootBlock>, hashes: set<Hash>, keys: set<Key>, ghost done: set<Hash>,
                    before: seq<(Hash, nat)>) returns (lost: seq<(Hash, nat)>)
    requires Linked(s.roots)
    requires forall i | 0 <= i < |blocks| :: blocks[i].hash in s.roots && s.roots[blocks[i].hash] == blocks[i] && blocks[i].hash !in done
    requires forall i, j | 0 <= i < j < |blocks| :: blocks[i].hash != blocks[j].hash
    requires forall h :: h in hashes <==> IsCanonical(s, h)
    requires forall k :: k in keys <==> OnCanonicalChain(s, k)
    requires LostListed(s, done, before)
    ensures LostListed(s, done + Hashes(blocks), lost)
  {
    lost := before;
    ghost var d := done;
    for i := 0 to |blocks|
      invariant forall h :: h in d <==> h in done || exists j :: 0 <= j < i && blocks[j].hash == h
      invariant LostListed(s, d, lost)
    {
      lost := ScanBlock(s, blocks[i], hashes, keys, d, lost);
      d := d + {blocks[i].hash};
    }
    assert d == done + Hashes(blocks);
  }

  method SortedContested(m: Blocks, groups: map<nat, seq<RootBlock>>, only: Option<nat>) returns (contested: seq<nat>)
    requires Linked(m) && Grouped(m, m.Keys, groups)
    ensures forall i, j | 0 <= i < j < |contested| :: contested[i] < contested[j]
    ensures forall k: nat :: k in contested <==> IsContested(m, only, k)
  {
    var picked: set<nat> := {};
    var todo := groups.Keys;
    while todo != {}
      invariant todo <= groups.Keys
      invariant forall k: nat :: k in picked <==> k in groups && k !in todo && |groups[k]| > 1 && (only.None? || only.value == k)
      decreases todo
    {
      var k :| k in todo;
      todo := todo - {k};
      if |groups[k]| > 1 && (only.None? || only.value == k) {
        picked := picked + {k};
      }
    }
    contested := Ascending(picked);
    forall k: nat
      ensures k in contested <==> IsContested(m, only, k)
    {
      GroupIsHeight(m, groups, k);
    }
  }

  method Ascending(s: set<nat>) returns (xs: seq<nat>)
    ensures forall i, j | 0 <= i < j < |xs| :: xs[i] < xs[j]
    ensures forall k :: k in xs <==> k in s
  {
    xs := [];
    var rest := s;
    while rest != {}
      invariant rest <= s
      invariant forall k :: k in xs <==> k in s && k !in rest
      invariant forall i, j | 0 <= i < j < |xs| :: xs[i] < xs[j]
      invariant forall i, k | 0 <= i < |xs| && k in rest :: xs[i] < k
      decreases rest
    {
      var k := Least(rest);
      xs, rest := xs + [k], rest - {k};
    }
  }

  method Least(s: set<nat>) returns (k: nat)
    requires s != {}
    ensures k in s && forall x <- s :: k <= x
  {
    k :| k in s;
    var rest := s - {k};
    while rest != {}
      invariant rest < s && k in s && forall x <- s :: x in rest || k <= x
      decreases rest
    {
      var x :| x in rest;
      rest := rest - {x};
      k := if x < k then x else k;
    }
  }
}

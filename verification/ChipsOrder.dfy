/**
 Every observer of a table folds it to the same state
 (chips-client/src/lib/chipsEngine.ts): the owner filter, the content-id
 dedupe and the total replay order make the result a function of the set of the
 owner's replies, not of how they were served.
 */
module ChipsOrder {
  import opened Wrappers
  import opened ChipsEngine

  const MAX_SAFE_INTEGER: nat := 9_007_199_254_740_991

  function HeightKey(r: Reply): nat {
    if r.height.Some? then r.height.value else MAX_SAFE_INTEGER
  }

  /** Confirmed first by height, then by authoring time, then by content id. */
  predicate Less(a: Reply, b: Reply) {
    || HeightKey(a) < HeightKey(b)
    || (HeightKey(a) == HeightKey(b) && a.ms < b.ms)
    || (HeightKey(a) == HeightKey(b) && a.ms == b.ms && a.cid < b.cid)
  }

  function Mine(rs: seq<Reply>, owner: nat): seq<Reply> {
    if rs == [] then []
    else Mine(rs[..|rs| - 1], owner) + (if rs[|rs| - 1].author == owner then [rs[|rs| - 1]] else [])
  }

  predicate HasCid(rs: seq<Reply>, cid: nat) {
    exists i | 0 <= i < |rs| :: rs[i].cid == cid
  }

  /** The first entry of each content id. */
  function Dedupe(rs: seq<Reply>): seq<Reply> {
    if rs == [] then []
    else
      var d := Dedupe(rs[..|rs| - 1]);
      if HasCid(d, rs[|rs| - 1].cid) then d else d + [rs[|rs| - 1]]
  }

  function Insert(r: Reply, xs: seq<Reply>): seq<Reply> {
    if xs == [] then [r] else if Less(r, xs[0]) then [r] + xs else [xs[0]] + Insert(r, xs[1..])
  }

  function Ordered(rs: seq<Reply>): seq<Reply> {
    if rs == [] then [] else Insert(rs[|rs| - 1], Ordered(rs[..|rs| - 1]))
  }

  function FoldChips(cat: Catalog, v: Verified, owner: nat, rs: seq<Reply>): Fold {
    FoldAll(cat, v, START, Ordered(Dedupe(Mine(rs, owner))))
  }

  // ------------------------------------------------------------------ sorting

  ghost predicate Increasing(xs: seq<Reply>) {
    forall i, j | 0 <= i < j < |xs| :: Less(xs[i], xs[j])
  }

  ghost predicate DistinctCids(rs: seq<Reply>) {
    forall i, j | 0 <= i < j < |rs| :: rs[i].cid != rs[j].cid
  }

  lemma {:induction false} InsertSorts(r: Reply, xs: seq<Reply>)
    requires Increasing(xs) && forall x <- xs :: x.cid != r.cid
    ensures Increasing(Insert(r, xs)) && forall x :: x in Insert(r, xs) <==> x == r || x in xs
    decreases |xs|
  {
    if xs != [] {
      assert xs == [xs[0]] + xs[1..];
      if !Less(r, xs[0]) {
        InsertSorts(r, xs[1..]);
        var rest := Insert(r, xs[1..]);
        forall i | 0 <= i < |rest|
          ensures Less(xs[0], rest[i])
        {
          assert rest[i] in rest;
        }
      }
    }
  }

  lemma {:induction false} OrderedSorts(rs: seq<Reply>)
    requires DistinctCids(rs)
    ensures Increasing(Ordered(rs)) && forall x :: x in Ordered(rs) <==> x in rs
    decreases |rs|
  {
    if rs != [] {
      var n := |rs| - 1;
      OrderedSorts(rs[..n]);
      assert rs == rs[..n] + [rs[n]];
      InsertSorts(rs[n], Ordered(rs[..n]));
    }
  }

  /** A replay order is determined by what is replayed. */
  lemma {:induction false} IncreasingUnique(xs: seq<Reply>, ys: seq<Reply>)
    requires Increasing(xs) && Increasing(ys) && forall r :: r in xs <==> r in ys
    ensures xs == ys
    decreases |xs|
  {
    assert ys != [] ==> ys[0] in ys;
    if xs != [] {
      assert xs[0] in xs && ys != [];
      HeadsAgree(xs, ys);
      assert xs == [xs[0]] + xs[1..] && ys == [ys[0]] + ys[1..];
      forall r
        ensures r in xs[1..] <==> r in ys[1..]
      {
        NotInTail(xs);
        NotInTail(ys);
        assert r in xs <==> r == xs[0] || r in xs[1..];
        assert r in ys <==> r == ys[0] || r in ys[1..];
      }
      IncreasingUnique(xs[1..], ys[1..]);
    }
  }

  lemma HeadsAgree(xs: seq<Reply>, ys: seq<Reply>)
    requires Increasing(xs) && Increasing(ys) && xs != [] && ys != [] && forall r :: r in xs <==> r in ys
    ensures xs[0] == ys[0]
  {
    assert xs[0] in ys && ys[0] in xs;
    var i :| 0 <= i < |ys| && ys[i] == xs[0];
    var j :| 0 <= j < |xs| && xs[j] == ys[0];
  }

  lemma NotInTail(xs: seq<Reply>)
    requires Increasing(xs) && xs != []
    ensures xs[0] !in xs[1..]
  {
    forall i | 0 < i < |xs|
      ensures xs[i] != xs[0]
    {
      assert Less(xs[0], xs[i]);
    }
  }

  // ------------------------------------------------------------------ filtering

  lemma {:induction false} MineIs(rs: seq<Reply>, owner: nat)
    ensures forall r :: r in Mine(rs, owner) <==> r in rs && r.author == owner
    decreases |rs|
  {
    if rs != [] {
      MineIs(rs[..|rs| - 1], owner);
      assert rs == rs[..|rs| - 1] + [rs[|rs| - 1]];
    }
  }

  lemma {:induction false} DedupeIs(rs: seq<Reply>)
    ensures DistinctCids(Dedupe(rs))
    ensures forall r <- Dedupe(rs) :: r in rs
    ensures forall r <- rs :: HasCid(Dedupe(rs), r.cid)
    decreases |rs|
  {
    if rs != [] {
      var n := |rs| - 1;
      DedupeIs(rs[..n]);
      assert rs == rs[..n] + [rs[n]];
      var d := Dedupe(rs[..n]);
      if !HasCid(d, rs[n].cid) {
        forall r <- rs
          ensures HasCid(d + [rs[n]], r.cid)
        {
          if r in rs[..n] {
            var i :| 0 <= i < |d| && d[i].cid == r.cid;
            assert (d + [rs[n]])[i].cid == r.cid;
          } else {
            assert (d + [rs[n]])[|d|].cid == r.cid;
          }
        }
      }
    }
  }

  /** The owner's replies carry one content each: a content id names one reply. */
  ghost predicate CidNamesReply(rs: seq<Reply>, owner: nat) {
    forall a, b | a in rs && b in rs && a.author == owner && b.author == owner && a.cid == b.cid :: a == b
  }

  lemma ReplayedIs(rs: seq<Reply>, owner: nat)
    requires CidNamesReply(rs, owner)
    ensures var xs := Ordered(Dedupe(Mine(rs, owner)));
            Increasing(xs) && forall r :: r in xs <==> r in rs && r.author == owner
  {
    var mine := Mine(rs, owner);
    var d := Dedupe(mine);
    MineIs(rs, owner);
    DedupeIs(mine);
    OrderedSorts(d);
    forall r | r in mine
      ensures r in d
    {
      var i :| 0 <= i < |d| && d[i].cid == r.cid;
      assert d[i] in d && d[i] in mine;
    }
  }

  /**
   Two observers who hold the same replies of the owner, in any order, with any
   repeats and any strangers' replies mixed in, fold the table to the same state.
   */
  lemma ObserversAgree(cat: Catalog, v: Verified, owner: nat, rs: seq<Reply>, rs': seq<Reply>)
    requires CidNamesReply(rs, owner)
    requires forall r :: (r in rs && r.author == owner) <==> (r in rs' && r.author == owner)
    ensures FoldChips(cat, v, owner, rs) == FoldChips(cat, v, owner, rs')
  {
    ReplayedIs(rs, owner);
    assert CidNamesReply(rs', owner);
    ReplayedIs(rs', owner);
    IncreasingUnique(Ordered(Dedupe(Mine(rs, owner))), Ordered(Dedupe(Mine(rs', owner))));
  }

  /** Pending replies replay after every confirmed one. */
  lemma PendingReplayLast(rs: seq<Reply>, owner: nat, i: nat, j: nat)
    requires CidNamesReply(rs, owner)
    requires forall r <- rs :: r.height.Some? ==> r.height.value < MAX_SAFE_INTEGER
    requires var xs := Ordered(Dedupe(Mine(rs, owner))); i < |xs| && j < |xs| && xs[i].height.None? && xs[j].height.Some?
    ensures j < i
  {
    ReplayedIs(rs, owner);
    var xs := Ordered(Dedupe(Mine(rs, owner)));
    assert xs[j] in xs && xs[j] in rs;
    assert HeightKey(xs[j]) < HeightKey(xs[i]);
  }

  /** One content id served with two different block times: the serving order then decides the state. */
  lemma TwoCopiesDisagree(cat: Catalog, v: Verified)
    ensures var a, b := Reply(1, 7, Some(3), 50, 40, Dip(10)), Reply(1, 7, Some(4), 60, 40, Dip(10));
            FoldChips(cat, v, 1, [a, b]) != FoldChips(cat, v, 1, [b, a])
  {
    var a, b := Reply(1, 7, Some(3), 50, 40, Dip(10)), Reply(1, 7, Some(4), 60, 40, Dip(10));
    FirstCopyWins(cat, v, a, b);
    FirstCopyWins(cat, v, b, a);
    var fa, fb := FoldStep(cat, v, START, a), FoldStep(cat, v, START, b);
    assert fa.table.lastConfirmedAt == 50 && fb.table.lastConfirmedAt == 60;
  }

  lemma FirstCopyWins(cat: Catalog, v: Verified, a: Reply, b: Reply)
    requires a.author == 1 && b.author == 1 && a.cid == b.cid
    ensures FoldChips(cat, v, 1, [a, b]) == FoldStep(cat, v, START, a)
  {
    assert [a, b][..1] == [a] && [a][..0] == [];
    assert Mine([a], 1) == [a] && Mine([a, b], 1) == [a, b];
    assert Dedupe([a]) == [a];
    assert [a][0].cid == b.cid;
    assert Dedupe([a, b][..1]) == [a] && [a, b][1] == b;
    assert Ordered([a]) == [a];
    assert FoldAll(cat, v, START, [a]) == FoldAll(cat, v, FoldStep(cat, v, START, a), [a][1..]);
  }

  /** A single reply of the owner replays as itself. */
  lemma LoneReply(r: Reply, owner: nat)
    requires r.author == owner
    ensures Ordered(Dedupe(Mine([r], owner))) == [r]
  {
    assert [r][..0] == [];
    assert Mine([r], owner) == [r] && Dedupe([r]) == [r];
    assert Ordered([r][..0]) == [] && Insert(r, []) == [r];
  }

  /** Copies of one content id are replaced by the first of them served. */
  lemma {:induction false} DedupeKeepsFirst(rs: seq<Reply>, i: nat)
    requires i < |rs| && forall j | 0 <= j < i :: rs[j].cid != rs[i].cid
    ensures rs[i] in Dedupe(rs)
    decreases |rs|
  {
    var n := |rs| - 1;
    DedupeIs(rs[..n]);
    if i < n {
      DedupeKeepsFirst(rs[..n], i);
    } else {
      forall r <- Dedupe(rs[..n])
        ensures r.cid != rs[n].cid
      {
        assert r in rs[..n];
      }
      assert !HasCid(Dedupe(rs[..n]), rs[n].cid);
    }
  }

  /**
   The order of replay: by height, then authoring time, then content id, and the
   pending ones after every confirmed one below the pending mark.
   */
  lemma ReplayOrder(rs: seq<Reply>, owner: nat, i: nat, j: nat)
    requires CidNamesReply(rs, owner) && i < j < |Ordered(Dedupe(Mine(rs, owner)))|
    requires forall r <- rs :: r.height.Some? ==> r.height.value < MAX_SAFE_INTEGER
    ensures var xs := Ordered(Dedupe(Mine(rs, owner)));
            var a, b := xs[i], xs[j];
            && (b.height.Some? ==> a.height.Some? && a.height.value <= b.height.value)
            && (a.height == b.height ==> a.ms < b.ms || (a.ms == b.ms && a.cid < b.cid))
  {
    ReplayedIs(rs, owner);
    var xs := Ordered(Dedupe(Mine(rs, owner)));
    assert xs[i] in xs && xs[j] in xs && Less(xs[i], xs[j]);
  }
}

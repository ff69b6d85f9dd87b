/**
 Which moves a fold has counted, read off the replies it replays
 (chips-client/src/lib/chipsEngine.ts).
 */
module ChipsCredit {
  import opened Wrappers
  import opened ChipsEngine
  import opened ChipsOrder

  /** The chip's proof is verified, at no fewer bits than claimed, and worth banking. */
  predicate Creditable(v: Verified, c: Chip) {
    (c.ms, c.nonce) in v && c.bits >= BANK_MIN_BITS && v[(c.ms, c.nonce)] >= c.bits
  }

  /** Reply `r` banks proof `p`. */
  ghost predicate Banks(v: Verified, r: Reply, p: (nat, nat)) {
    r.move.Bank? && exists c :: c in r.move.chips && (c.ms, c.nonce) == p && Creditable(v, c)
  }

  lemma {:induction false} ChipsCount(v: Verified, f: Fold, chips: seq<Chip>, confirmed: bool, at: nat, p: (nat, nat))
    ensures p in ApplyChips(v, f, chips, confirmed, at).proofs <==>
            p in f.proofs || exists c :: c in chips && (c.ms, c.nonce) == p && Creditable(v, c)
    ensures ApplyChips(v, f, chips, confirmed, at).seen == f.seen
    decreases |chips|
  {
    if chips != [] {
      ChipsCount(v, ApplyChip(v, f, chips[0], confirmed, at), chips[1..], confirmed, at, p);
      assert chips == [chips[0]] + chips[1..];
    }
  }

  lemma StepCounts(cat: Catalog, v: Verified, f: Fold, r: Reply, p: (nat, nat), k: Seen)
    ensures p in FoldStep(cat, v, f, r).proofs <==> p in f.proofs || Banks(v, r, p)
    ensures k in FoldStep(cat, v, f, r).seen <==> k in f.seen || SeenKey(r) == Some(k)
  {
    if r.move.Bank? {
      var f1 := f.(table := Tick(f.table, r));
      ChipsCount(v, f1, r.move.chips, r.height.Some?, if r.height.Some? then r.createdAt else f1.table.lastConfirmedAt, p);
    }
  }

  /** A fold has credited exactly the proofs some replayed bank carries verified, and marked exactly the moves it replayed. */
  lemma {:induction false} FoldCounts(cat: Catalog, v: Verified, f: Fold, rs: seq<Reply>, p: (nat, nat), k: Seen)
    ensures p in FoldAll(cat, v, f, rs).proofs <==> p in f.proofs || exists r :: r in rs && Banks(v, r, p)
    ensures k in FoldAll(cat, v, f, rs).seen <==> k in f.seen || exists r :: r in rs && SeenKey(r) == Some(k)
    decreases |rs|
  {
    if rs != [] {
      StepCounts(cat, v, f, rs[0], p, k);
      FoldCounts(cat, v, FoldStep(cat, v, f, rs[0]), rs[1..], p, k);
      assert rs == [rs[0]] + rs[1..];
    }
  }

  /** What is replayed is the owner's, and every content id of the owner's is replayed. */
  lemma ReplaysEveryCid(rs: seq<Reply>, owner: nat)
    ensures var xs := Ordered(Dedupe(Mine(rs, owner)));
            && (forall r <- xs :: r in rs && r.author == owner)
            && (forall r <- rs :: r.author == owner ==> exists x :: x in xs && x.cid == r.cid)
  {
    var mine := Mine(rs, owner);
    var d := Dedupe(mine);
    MineIs(rs, owner);
    DedupeIs(mine);
    OrderedSorts(d);
    forall r <- rs | r.author == owner
      ensures exists x :: x in Ordered(d) && x.cid == r.cid
    {
      assert HasCid(d, r.cid);
      var i :| 0 <= i < |d| && d[i].cid == r.cid;
      assert d[i] in d && d[i] in Ordered(d);
    }
  }
}

/**
 Queued moves as synthetic pending replies, folded together with the confirmed
 base (chips-client/src/lib/chipsPending.ts; foldNow of src/App.tsx).

 `pend` gives the synthetic content id of a queue entry; ids of the chain are
 never of that form.
 */
module ChipsPending {
  import opened Wrappers
  import opened ChipsEngine
  import opened ChipsOrder
  import opened ChipsCopies
  import opened ChipsQueue

  /** The authoring time a queued move claims: a bank's is its chip's. */
  function AuthoredAt(m: QMove): nat {
    if m.what.Bank? && |m.what.chips| == 1 then m.what.chips[0].ms else m.ms
  }

  /** A pending reply; its creation time is whatever the clock shows, which the fold never reads. */
  function Synthetic(pend: nat -> nat, m: QMove): Reply {
    Reply(m.author, pend(m.id), None, 0, AuthoredAt(m), m.what)
  }

  /** The creation time of a pending reply has no effect. */
  lemma PendingTimeIsIgnored(cat: Catalog, v: Verified, f: Fold, r: Reply, at: nat)
    requires r.height.None?
    ensures FoldStep(cat, v, f, r.(createdAt := at)) == FoldStep(cat, v, f, r)
  {
  }

  /** One pending reply for each entry in play that can be turned into a body. */
  function Overlay(pend: nat -> nat, q: Queue, table: nat, author: nat): seq<Reply> {
    if q == [] then []
    else
      var n := |q| - 1;
      Overlay(pend, q[..n], table, author)
      + (if Active(q[n], table, author) && Submittable(q[n]) then [Synthetic(pend, q[n])] else [])
  }

  function ChipProof(m: QMove): Option<(nat, nat)> {
    if m.what.Bank? && |m.what.chips| == 1 then Some((m.what.chips[0].ms, m.what.chips[0].nonce)) else None
  }

  /** The verification map with the queued chips' own bits added. */
  function Seed(v: Verified, q: Queue, table: nat, author: nat): Verified {
    if q == [] then v
    else
      var n := |q| - 1;
      var w := Seed(v, q[..n], table, author);
      if Active(q[n], table, author) && ChipProof(q[n]).Some? then w[ChipProof(q[n]).value := q[n].what.chips[0].bits] else w
  }

  /** The loop over the queue builds exactly the overlay and the seeded map. */
  method WithPending(pend: nat -> nat, confirmed: seq<Reply>, v: Verified, q: Queue, table: nat, author: nat)
    returns (replies: seq<Reply>, verified: Verified)
    ensures replies == confirmed + Overlay(pend, q, table, author)
    ensures verified == Seed(v, q, table, author)
  {
    var extra := [];
    verified := v;
    for i := 0 to |q|
      invariant extra == Overlay(pend, q[..i], table, author) && verified == Seed(v, q[..i], table, author)
    {
      var m := q[i];
      assert q[..i + 1][..i] == q[..i];
      if Active(m, table, author) {
        if m.what.Bank? && |m.what.chips| == 1 {
          verified := verified[(m.what.chips[0].ms, m.what.chips[0].nonce) := m.what.chips[0].bits];
        }
        if Submittable(m) {
          extra := extra + [Synthetic(pend, m)];
        }
      }
    }
    assert q[..|q|] == q;
    replies := confirmed + extra;
  }

  /** What the player sees: base and queue folded together. */
  function Shown(cat: Catalog, v: Verified, pend: nat -> nat, base: seq<Reply>, q: Queue, table: nat, author: nat): Fold {
    FoldChips(cat, Seed(v, q, table, author), author, base + Overlay(pend, q, table, author))
  }

  // ------------------------------------------------------------------ the overlay

  lemma {:induction false} OverlayIs(pend: nat -> nat, q: Queue, table: nat, author: nat)
    ensures forall r :: r in Overlay(pend, q, table, author) <==>
                        exists m :: m in q && Active(m, table, author) && Submittable(m) && r == Synthetic(pend, m)
    decreases |q|
  {
    if q != [] {
      var n := |q| - 1;
      OverlayIs(pend, q[..n], table, author);
      assert q == q[..n] + [q[n]];
    }
  }

  /** A proof is in the seeded map if it was there or an entry in play carries it. */
  lemma {:induction false} SeedHas(v: Verified, q: Queue, table: nat, author: nat, p: (nat, nat))
    ensures p in Seed(v, q, table, author) <==> p in v || exists m :: m in q && Active(m, table, author) && ChipProof(m) == Some(p)
    decreases |q|
  {
    if q != [] {
      var n := |q| - 1;
      SeedHas(v, q[..n], table, author, p);
      assert q == q[..n] + [q[n]];
    }
  }

  /** Entries that agree on the bits of a proof seed those bits. */
  lemma {:induction false} SeedBits(v: Verified, q: Queue, table: nat, author: nat, p: (nat, nat), bits: nat)
    requires forall m <- q | Active(m, table, author) && ChipProof(m) == Some(p) :: m.what.chips[0].bits == bits
    requires p !in v
    ensures p in Seed(v, q, table, author) ==> Seed(v, q, table, author)[p] == bits
    decreases |q|
  {
    if q != [] {
      var n := |q| - 1;
      assert q == q[..n] + [q[n]];
      SeedBits(v, q[..n], table, author, p, bits);
    }
  }

  // ------------------------------------------------------------------ a move just made

  /** One reply per content id, synthetic ids of their own, and heights below the pending mark. */
  ghost predicate Clean(pend: nat -> nat, base: seq<Reply>, q: Queue, author: nat) {
    CleanBase(pend, base, author) && forall i, j | 0 <= i < j < |q| :: q[i].id != q[j].id
  }

  ghost predicate CleanBase(pend: nat -> nat, base: seq<Reply>, author: nat) {
    && CidNamesReply(base, author)
    && (forall r <- base :: (forall i: nat :: pend(i) != r.cid) && (r.height.Some? ==> r.height.value < MAX_SAFE_INTEGER))
    && (forall i: nat, j: nat :: pend(i) == pend(j) ==> i == j)
  }

  lemma CleanNames(pend: nat -> nat, base: seq<Reply>, q: Queue, table: nat, author: nat)
    requires Clean(pend, base, q, author)
    ensures CidNamesReply(base + Overlay(pend, q, table, author), author)
  {
    OverlayIs(pend, q, table, author);
    var all := base + Overlay(pend, q, table, author);
    forall a, b | a in all && b in all && a.author == author && b.author == author && a.cid == b.cid
      ensures a == b
    {
      if a !in base && b !in base {
        var m :| m in q && Active(m, table, author) && Submittable(m) && a == Synthetic(pend, m);
        var o :| o in q && Active(o, table, author) && Submittable(o) && b == Synthetic(pend, o);
        var i :| 0 <= i < |q| && q[i] == m;
        var j :| 0 <= j < |q| && q[j] == o;
        assert i == j;
      }
    }
  }

  /** Every pending reply was authored before `ms`. */
  ghost predicate Before(pend: nat -> nat, base: seq<Reply>, q: Queue, table: nat, author: nat, ms: nat) {
    forall r <- base + Overlay(pend, q, table, author) :: r.author == author && r.height.None? ==> r.ms < ms
  }

  lemma OverlayAppend(pend: nat -> nat, q: Queue, m: QMove, table: nat, author: nat)
    requires Active(m, table, author) && Submittable(m)
    ensures Overlay(pend, q + [m], table, author) == Overlay(pend, q, table, author) + [Synthetic(pend, m)]
    ensures forall v :: !m.what.Bank? ==> Seed(v, q + [m], table, author) == Seed(v, q, table, author)
  {
    assert (q + [m])[..|q|] == q;
  }

  /** The move just made replays last. */
  lemma LatestReplaysLast(pend: nat -> nat, base: seq<Reply>, q: Queue, m: QMove, table: nat, author: nat)
    requires Clean(pend, base, q + [m], author) && Active(m, table, author) && Submittable(m)
    requires Before(pend, base, q, table, author, AuthoredAt(m))
    ensures Ordered(Dedupe(Mine(base + Overlay(pend, q + [m], table, author), author))) ==
            Ordered(Dedupe(Mine(base + Overlay(pend, q, table, author), author))) + [Synthetic(pend, m)]
  {
    var fewer, x := base + Overlay(pend, q, table, author), Synthetic(pend, m);
    OverlayAppend(pend, q, m, table, author);
    assert base + Overlay(pend, q + [m], table, author) == fewer + [x];
    CleanNames(pend, base, q + [m], table, author);
    forall r <- fewer | r.author == author
      ensures Less(r, x)
    {
      LatestIsGreatest(pend, base, q, m, table, author, r);
    }
    GreatestReplaysLast(fewer, x, author);
  }

  lemma LatestIsGreatest(pend: nat -> nat, base: seq<Reply>, q: Queue, m: QMove, table: nat, author: nat, r: Reply)
    requires Clean(pend, base, q + [m], author) && Before(pend, base, q, table, author, AuthoredAt(m))
    requires r in base + Overlay(pend, q, table, author) && r.author == author
    ensures Less(r, Synthetic(pend, m))
  {
    OverlayIs(pend, q, table, author);
  }

  lemma GreatestReplaysLast(rs: seq<Reply>, x: Reply, owner: nat)
    requires CidNamesReply(rs + [x], owner) && x.author == owner && forall r <- rs :: r.author == owner ==> Less(r, x)
    ensures Ordered(Dedupe(Mine(rs + [x], owner))) == Ordered(Dedupe(Mine(rs, owner))) + [x]
  {
    var all := rs + [x];
    assert forall r <- rs :: r in all;
    assert CidNamesReply(rs, owner);
    ReplayedIs(all, owner);
    ReplayedIs(rs, owner);
    var xs, ys := Ordered(Dedupe(Mine(rs, owner))), Ordered(Dedupe(Mine(all, owner)));
    forall i | 0 <= i < |xs|
      ensures Less(xs[i], x)
    {
      assert xs[i] in xs;
    }
    IncreasingUnique(xs + [x], ys);
  }

  /** Making a move shows what folding it on top of what was shown gives. */
  lemma ShownAppend(cat: Catalog, v: Verified, pend: nat -> nat, base: seq<Reply>, q: Queue, m: QMove, table: nat, author: nat)
    requires Clean(pend, base, q + [m], author) && Active(m, table, author) && Submittable(m) && !m.what.Bank?
    requires Before(pend, base, q, table, author, AuthoredAt(m))
    ensures Shown(cat, v, pend, base, q + [m], table, author) ==
            FoldStep(cat, Seed(v, q, table, author), Shown(cat, v, pend, base, q, table, author), Synthetic(pend, m))
  {
    LatestReplaysLast(pend, base, q, m, table, author);
    OverlayAppend(pend, q, m, table, author);
    var w, xs, x := Seed(v, q, table, author), Ordered(Dedupe(Mine(base + Overlay(pend, q, table, author), author))), Synthetic(pend, m);
    FoldAppend(cat, w, ChipsEngine.START, xs, [x]);
    var f := FoldAll(cat, w, ChipsEngine.START, xs);
    assert [x][1..] == [] && FoldAll(cat, w, FoldStep(cat, w, f, x), []) == FoldStep(cat, w, f, x);
  }

  /** A pending buy is the fold's buy on the table as it stands. */
  lemma PendingBuyIs(cat: Catalog, v: Verified, f: Fold, r: Reply)
    requires r.height.None? && r.move.Buy?
    ensures FoldStep(cat, v, f, r).table == ApplyBuy(cat, f.table, r.move.key).0
  {
  }

  lemma ShownBuy(cat: Catalog, v: Verified, pend: nat -> nat, base: seq<Reply>, q: Queue, m: QMove, table: nat, author: nat)
    requires Clean(pend, base, q + [m], author) && Active(m, table, author) && Submittable(m) && m.what.Buy?
    requires Before(pend, base, q, table, author, m.ms)
    ensures Shown(cat, v, pend, base, q + [m], table, author).table ==
            ApplyBuy(cat, Shown(cat, v, pend, base, q, table, author).table, m.what.key).0
  {
    ShownAppend(cat, v, pend, base, q, m, table, author);
    PendingBuyIs(cat, Seed(v, q, table, author), Shown(cat, v, pend, base, q, table, author), Synthetic(pend, m));
  }

  /** A queued move stands in the overlay under its author, unconfirmed, with the time its body will carry. */
  lemma SyntheticCarries(pend: nat -> nat, m: QMove)
    requires Submittable(m)
    ensures var r := Synthetic(pend, m);
            && r.author == m.author && r.height.None? && r.move == m.what && r.cid == pend(m.id)
            && (m.what.Bank? ==> r.ms == m.what.chips[0].ms) && (!m.what.Bank? ==> r.ms == m.ms)
  {
  }
}

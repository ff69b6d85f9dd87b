/**
 Retiring settled queue entries, as the player sees it
 (chips-client/src/lib/chipsSettling.ts, chipsPending.ts, chipsEngine.ts): when
 does dropping a local copy leave the displayed fold as it was?

 A confirmed twin replays before the copy. A twin the node serves from its
 mempool has no height yet; it replays beside the copy, on either side of it.
 */
module ChipsRetire {
  import opened Wrappers
  import opened ChipsEngine
  import opened ChipsOrder
  import opened ChipsCopies
  import opened ChipsCredit
  import opened ChipsQueue
  import opened ChipsPending

  // ------------------------------------------------------------------ copies that replay first

  /** Folds that differ in their logs only go on doing so. */
  lemma {:induction false} FoldRespects(cat: Catalog, v: Verified, f: Fold, g: Fold, rs: seq<Reply>)
    requires SameEconomy(f, g)
    ensures SameEconomy(FoldAll(cat, v, f, rs), FoldAll(cat, v, g, rs))
    decreases |rs|
  {
    if rs != [] {
      StepRespects(cat, v, f, g, rs[0]);
      FoldRespects(cat, v, FoldStep(cat, v, f, rs[0]), FoldStep(cat, v, g, rs[0]), rs[1..]);
    }
  }

  /** `m` may change places with the pending reply `p`: it says the same, or both are dips. */
  predicate Harmless(m: Reply, p: Reply) {
    m.height.None? && ((m.move == p.move && m.ms == p.ms) || (m.move.Dip? && p.move.Dip?))
  }

  lemma DipsCommute(t: Table, a: nat, b: nat, at: nat)
    ensures ApplyDip(ApplyDip(t, a, false, at), b, false, at) == ApplyDip(ApplyDip(t, b, false, at), a, false, at)
  {
  }

  lemma PendingDip(cat: Catalog, v: Verified, f: Fold, p: Reply)
    requires p.height.None? && p.move.Dip?
    ensures var k, g := SeenDip(p.move.amount, p.ms), FoldStep(cat, v, f, p);
            && g.proofs == f.proofs && g.seen == f.seen + {k}
            && g.table == if k in f.seen then f.table else ApplyDip(f.table, p.move.amount, false, f.table.lastConfirmedAt)
  {
  }

  lemma SwapHarmless(cat: Catalog, v: Verified, f: Fold, p: Reply, m: Reply)
    requires p.height.None? && Harmless(m, p)
    ensures SameEconomy(FoldStep(cat, v, FoldStep(cat, v, f, p), m), FoldStep(cat, v, FoldStep(cat, v, f, m), p))
  {
    if m.move == p.move && m.ms == p.ms {
      assert forall g :: FoldStep(cat, v, g, m) == FoldStep(cat, v, g, p);
    } else {
      SwapDips(cat, v, f, p, m);
    }
  }

  lemma SwapDips(cat: Catalog, v: Verified, f: Fold, p: Reply, m: Reply)
    requires p.height.None? && m.height.None? && p.move.Dip? && m.move.Dip?
    ensures SameEconomy(FoldStep(cat, v, FoldStep(cat, v, f, p), m), FoldStep(cat, v, FoldStep(cat, v, f, m), p))
  {
    PendingDip(cat, v, f, p);
    PendingDip(cat, v, f, m);
    PendingDip(cat, v, FoldStep(cat, v, f, p), m);
    PendingDip(cat, v, FoldStep(cat, v, f, m), p);
    DipsCommute(f.table, p.move.amount, m.move.amount, f.table.lastConfirmedAt);
  }

  /** A pending reply moves past a run of harmless ones. */
  lemma {:induction false} MovePast(cat: Catalog, v: Verified, f: Fold, p: Reply, mid: seq<Reply>)
    requires p.height.None? && forall m <- mid :: Harmless(m, p)
    ensures SameEconomy(FoldAll(cat, v, FoldStep(cat, v, f, p), mid), FoldStep(cat, v, FoldAll(cat, v, f, mid), p))
    decreases |mid|
  {
    if mid != [] {
      var m, rest := mid[0], mid[1..];
      SwapHarmless(cat, v, f, p, m);
      FoldRespects(cat, v, FoldStep(cat, v, FoldStep(cat, v, f, p), m), FoldStep(cat, v, FoldStep(cat, v, f, m), p), rest);
      MovePast(cat, v, FoldStep(cat, v, f, m), p, rest);
    }
  }

  /** `p` is a copy of the pending reply `r`, of its first chip if that is a batch. */
  ghost predicate Leads(p: Reply, r: Reply) {
    SelfGuarded(r.move) && r.height.None? && IsCopy(p, r) && (r.move.Bank? ==> p.move.chips[0] == r.move.chips[0])
  }

  /** Folded just before its twin, the copy takes the twin's effect and nothing else changes. */
  lemma LeadIsAbsorbed(cat: Catalog, v: Verified, f: Fold, p: Reply, r: Reply)
    requires Leads(p, r)
    ensures SameEconomy(FoldStep(cat, v, FoldStep(cat, v, f, p), r), FoldStep(cat, v, f, r))
  {
    if r.move.Bank? {
      LeadChipIsAbsorbed(v, f, r.move.chips, f.table.lastConfirmedAt);
      assert p.move.chips == [r.move.chips[0]];
    } else {
      assert FoldStep(cat, v, f, p) == FoldStep(cat, v, f, r);
      TwinMakesInert(cat, v, f, p, r);
      InertIsNoOp(cat, v, FoldStep(cat, v, f, p), r);
    }
  }

  lemma LeadChipIsAbsorbed(v: Verified, f: Fold, chips: seq<Chip>, at: nat)
    requires chips != []
    ensures var g := ApplyChips(v, f, [chips[0]], false, at);
            g.table.lastConfirmedAt == f.table.lastConfirmedAt
            && SameEconomy(ApplyChips(v, g, chips, false, at), ApplyChips(v, f, chips, false, at))
  {
    var c := chips[0];
    var g := ApplyChip(v, f, c, false, at);
    assert [c][1..] == [] && ApplyChips(v, g, [], false, at) == g;
    assert ApplyChips(v, f, [c], false, at) == g;
    assert SameEconomy(ApplyChip(v, g, c, false, at), g);
    ChipsRespect(v, ApplyChip(v, g, c, false, at), g, chips[1..], false, at);
  }

  /** Removing a copy that replays before its twin with only harmless replies between them. */
  lemma LeadDrops(cat: Catalog, v: Verified, f: Fold, a: seq<Reply>, p: Reply, mid: seq<Reply>, r: Reply, b: seq<Reply>)
    requires Leads(p, r) && forall m <- mid :: Harmless(m, p)
    ensures SameEconomy(FoldAll(cat, v, f, a + ([p] + (mid + ([r] + b)))), FoldAll(cat, v, f, a + (mid + ([r] + b))))
  {
    var g := FoldAll(cat, v, f, a);
    FoldAppend(cat, v, f, a, [p] + (mid + ([r] + b)));
    FoldAppend(cat, v, f, a, mid + ([r] + b));
    LeadDropsHere(cat, v, g, p, mid, r, b);
  }

  lemma LeadDropsHere(cat: Catalog, v: Verified, g: Fold, p: Reply, mid: seq<Reply>, r: Reply, b: seq<Reply>)
    requires Leads(p, r) && forall m <- mid :: Harmless(m, p)
    ensures SameEconomy(FoldAll(cat, v, g, [p] + (mid + ([r] + b))), FoldAll(cat, v, g, mid + ([r] + b)))
  {
    var h, u := FoldAll(cat, v, g, mid), FoldAll(cat, v, FoldStep(cat, v, g, p), mid);
    assert ([p] + (mid + ([r] + b)))[1..] == mid + ([r] + b) && ([r] + b)[1..] == b;
    FoldAppend(cat, v, FoldStep(cat, v, g, p), mid, [r] + b);
    FoldAppend(cat, v, g, mid, [r] + b);
    MovePast(cat, v, g, p, mid);
    StepRespects(cat, v, u, FoldStep(cat, v, h, p), r);
    LeadIsAbsorbed(cat, v, h, p, r);
    FoldRespects(cat, v, FoldStep(cat, v, u, r), FoldStep(cat, v, h, r), b);
  }

  // ------------------------------------------------------------------ dropping copies from a replay

  lemma {:induction false} RemovedIs(rs: seq<Reply>, gone: set<Reply>)
    requires Increasing(rs)
    ensures Increasing(Removed(rs, gone)) && forall r :: r in Removed(rs, gone) <==> r in rs && r !in gone
    decreases |rs|
  {
    if rs != [] {
      RemovedIs(rs[1..], gone);
      assert rs == [rs[0]] + rs[1..];
      var rest := Removed(rs[1..], gone);
      forall i | 0 <= i < |rest|
        ensures Less(rs[0], rest[i])
      {
        assert rest[i] in rs[1..];
      }
    }
  }

  /** `r` stands in for the pending copy `p`: it replays first, or next but for harmless replies. */
  ghost predicate StandsIn(rs: seq<Reply>, p: Reply, r: Reply) {
    && r != p && SelfGuarded(r.move) && IsCopy(p, r)
    && (Less(r, p) || (Leads(p, r) && forall m <- rs :: m.author == p.author && Less(p, m) && Less(m, r) ==> Harmless(m, p)))
  }

  ghost predicate OwnReplay(rs: seq<Reply>, owner: nat) {
    Increasing(rs) && forall r <- rs :: r.author == owner
  }

  lemma DropOne(cat: Catalog, v: Verified, f: Fold, xs: seq<Reply>, p: Reply, r: Reply, owner: nat)
    requires OwnReplay(xs, owner) && p in xs && r in xs && StandsIn(xs, p, r)
    ensures SameEconomy(FoldAll(cat, v, f, xs), FoldAll(cat, v, f, Removed(xs, {p})))
  {
    var j :| 0 <= j < |xs| && xs[j] == p;
    var i :| 0 <= i < |xs| && xs[i] == r;
    if Less(r, p) {
      assert i < j;
      forall k | 0 <= k < |xs| && xs[k] in {p}
        ensures xs[k].height.None? && FollowsTwin(xs, k)
      {
        assert k == j;
      }
      SettlingCopiesAreInvisible(cat, v, f, xs, {p});
    } else {
      DropLead(cat, v, f, xs, j, i, owner);
    }
  }

  lemma DropLead(cat: Catalog, v: Verified, f: Fold, xs: seq<Reply>, j: nat, i: nat, owner: nat)
    requires OwnReplay(xs, owner) && j < |xs| && i < |xs| && StandsIn(xs, xs[j], xs[i]) && !Less(xs[i], xs[j])
    ensures SameEconomy(FoldAll(cat, v, f, xs), FoldAll(cat, v, f, Removed(xs, {xs[j]})))
  {
    assert j < i;
    BetweenIsHarmless(xs, j, i, owner);
    SplitAround(xs, j, i);
    LeadDrops(cat, v, f, xs[..j], xs[j], xs[j + 1..i], xs[i], xs[i + 1..]);
    RemovedAt(xs, j);
  }

  lemma BetweenIsHarmless(xs: seq<Reply>, j: nat, i: nat, owner: nat)
    requires OwnReplay(xs, owner) && j < i < |xs| && StandsIn(xs, xs[j], xs[i])
    ensures forall m <- xs[j + 1..i] :: Harmless(m, xs[j])
  {
    var mid := xs[j + 1..i];
    forall m <- mid
      ensures Harmless(m, xs[j])
    {
      var k :| 0 <= k < |mid| && mid[k] == m;
      assert xs[j + 1 + k] == m;
    }
  }

  lemma SplitAround<T>(xs: seq<T>, j: nat, i: nat)
    requires j < i < |xs|
    ensures xs == xs[..j] + ([xs[j]] + (xs[j + 1..i] + ([xs[i]] + xs[i + 1..])))
    ensures xs[..j] + xs[j + 1..] == xs[..j] + (xs[j + 1..i] + ([xs[i]] + xs[i + 1..]))
  {
    assert xs[j + 1..] == xs[j + 1..i] + ([xs[i]] + xs[i + 1..]);
  }

  lemma {:induction false} RemovesNone(rs: seq<Reply>, gone: set<Reply>)
    requires forall i | 0 <= i < |rs| :: rs[i] !in gone
    ensures Removed(rs, gone) == rs
    decreases |rs|
  {
    if rs != [] {
      RemovesNone(rs[1..], gone);
    }
  }

  lemma {:induction false} RemovedAt(xs: seq<Reply>, j: nat)
    requires Increasing(xs) && j < |xs|
    ensures Removed(xs, {xs[j]}) == xs[..j] + xs[j + 1..]
    decreases |xs|
  {
    if j == 0 {
      RemovesNone(xs[1..], {xs[0]});
    } else {
      var rest := xs[1..];
      RemovedAt(rest, j - 1);
      assert rest[j - 1] == xs[j] && [xs[0]] + (rest[..j - 1] + rest[j..]) == xs[..j] + xs[j + 1..];
    }
  }

  /** Dropping every copy of a replay that a kept reply stands in for leaves the same table. */
  lemma {:induction false} DropAll(cat: Catalog, v: Verified, f: Fold, xs: seq<Reply>, gone: set<Reply>, owner: nat)
    requires OwnReplay(xs, owner)
    requires forall p <- gone | p in xs :: exists r :: r in xs && r !in gone && StandsIn(xs, p, r)
    ensures SameEconomy(FoldAll(cat, v, f, xs), FoldAll(cat, v, f, Removed(xs, gone)))
    decreases |gone|
  {
    RemovedIs(xs, gone);
    if p :| p in gone && p in xs {
      var r :| r in xs && r !in gone && StandsIn(xs, p, r);
      DropOne(cat, v, f, xs, p, r, owner);
      var ys, rest := Removed(xs, {p}), gone - {p};
      RemovedIs(xs, {p});
      forall o <- rest | o in ys
        ensures exists x :: x in ys && x !in rest && StandsIn(ys, o, x)
      {
        var x :| x in xs && x !in gone && StandsIn(xs, o, x);
        assert x in ys && StandsIn(ys, o, x);
      }
      DropAll(cat, v, f, ys, rest, owner);
      RemovedIs(ys, rest);
      IncreasingUnique(Removed(ys, rest), Removed(xs, gone));
    } else {
      IncreasingUnique(Removed(xs, gone), xs);
    }
  }

  // ------------------------------------------------------------------ what the display shows

  ghost function Replay(rs: seq<Reply>, owner: nat): seq<Reply> {
    Ordered(Dedupe(Mine(rs, owner)))
  }

  /** Some reply of the base stands in for the entry's local copy. */
  ghost predicate HasTwin(pend: nat -> nat, base: seq<Reply>, q: Queue, table: nat, author: nat, m: QMove) {
    exists r :: r in base && r.author == author && StandsIn(base + Overlay(pend, q, table, author), Synthetic(pend, m), r)
  }

  /** An entry in play that `kept` no longer has. */
  ghost predicate Dropped(q: Queue, kept: Queue, table: nat, author: nat, m: QMove) {
    m in q && m !in kept && Active(m, table, author)
  }

  ghost predicate AllTwinned(pend: nat -> nat, base: seq<Reply>, q: Queue, kept: Queue, table: nat, author: nat) {
    && (forall m <- kept :: m in q)
    && forall m :: Dropped(q, kept, table, author, m) && (Submittable(m) || ChipProof(m).Some?) ==> HasTwin(pend, base, q, table, author, m)
  }

  /** Under one verification map, dropping twinned entries leaves the same table. */
  lemma DroppedUnderOneMap(cat: Catalog, v: Verified, pend: nat -> nat, base: seq<Reply>, q: Queue, kept: Queue, table: nat, author: nat)
    requires CidNamesReply(base + Overlay(pend, q, table, author), author) && AllTwinned(pend, base, q, kept, table, author)
    ensures SameEconomy(FoldChips(cat, v, author, base + Overlay(pend, q, table, author)),
                        FoldChips(cat, v, author, base + Overlay(pend, kept, table, author)))
  {
    var all, fewer := base + Overlay(pend, q, table, author), base + Overlay(pend, kept, table, author);
    OverlayIs(pend, q, table, author);
    OverlayIs(pend, kept, table, author);
    assert forall r <- fewer :: r in all;
    ReplayedIs(all, author);
    ReplayedIs(fewer, author);
    var xs, ys := Replay(all, author), Replay(fewer, author);
    var gone := set r | r in xs && r !in fewer;
    RemovedIs(xs, gone);
    IncreasingUnique(Removed(xs, gone), ys);
    forall p <- gone | p in xs
      ensures exists r :: r in xs && r !in gone && StandsIn(xs, p, r)
    {
      DroppedHasTwin(pend, base, q, kept, table, author, xs, p);
    }
    DropAll(cat, v, ChipsEngine.START, xs, gone, author);
  }

  lemma DroppedHasTwin(pend: nat -> nat, base: seq<Reply>, q: Queue, kept: Queue, table: nat, author: nat, xs: seq<Reply>, p: Reply)
    requires AllTwinned(pend, base, q, kept, table, author)
    requires var all := base + Overlay(pend, q, table, author); forall r :: r in xs <==> r in all && r.author == author
    requires p in xs && p !in base + Overlay(pend, kept, table, author)
    ensures exists r :: r in xs && r in base && StandsIn(xs, p, r)
  {
    OverlayIs(pend, q, table, author);
    OverlayIs(pend, kept, table, author);
    var all := base + Overlay(pend, q, table, author);
    assert p in all;
    var m :| m in q && Active(m, table, author) && Submittable(m) && p == Synthetic(pend, m);
    assert Dropped(q, kept, table, author, m);
    assert HasTwin(pend, base, q, table, author, m);
    var r :| r in base && r.author == author && StandsIn(all, p, r);
    assert r in all && StandsIn(xs, p, r);
  }

  // ------------------------------------------------------------------ the verification map

  /** Every verified or queued proof comes with the bits it has. */
  ghost predicate TrueBits(bits: (nat, nat) -> nat, v: Verified, q: Queue, table: nat, author: nat) {
    && (forall p <- v :: v[p] == bits(p.0, p.1))
    && (forall m <- q | Active(m, table, author) && ChipProof(m).Some? ::
          m.what.chips[0].bits == bits(m.what.chips[0].ms, m.what.chips[0].nonce))
  }

  lemma {:induction false} SeedIsTrue(bits: (nat, nat) -> nat, v: Verified, q: Queue, table: nat, author: nat)
    requires TrueBits(bits, v, q, table, author)
    ensures forall p <- Seed(v, q, table, author) :: Seed(v, q, table, author)[p] == bits(p.0, p.1)
    decreases |q|
  {
    if q != [] {
      var n := |q| - 1;
      assert forall m <- q[..n] :: m in q;
      SeedIsTrue(bits, v, q[..n], table, author);
      assert q[n] in q;
    }
  }

  /** Two verification maps credit the same chips of a run. */
  ghost predicate SameCredit(v: Verified, w: Verified, rs: seq<Reply>) {
    forall r <- rs :: r.move.Bank? ==> forall c <- r.move.chips :: Creditable(v, c) <==> Creditable(w, c)
  }

  lemma {:induction false} ChipsReadCredit(v: Verified, w: Verified, f: Fold, g: Fold, chips: seq<Chip>, confirmed: bool, at: nat)
    requires SameEconomy(f, g) && forall c <- chips :: Creditable(v, c) <==> Creditable(w, c)
    ensures SameEconomy(ApplyChips(v, f, chips, confirmed, at), ApplyChips(w, g, chips, confirmed, at))
    decreases |chips|
  {
    if chips != [] {
      assert chips[0] in chips && forall c <- chips[1..] :: c in chips;
      ChipsReadCredit(v, w, ApplyChip(v, f, chips[0], confirmed, at), ApplyChip(w, g, chips[0], confirmed, at), chips[1..], confirmed, at);
    }
  }

  lemma StepReadsCredit(cat: Catalog, v: Verified, w: Verified, f: Fold, g: Fold, r: Reply)
    requires SameEconomy(f, g) && SameCredit(v, w, [r])
    ensures SameEconomy(FoldStep(cat, v, f, r), FoldStep(cat, w, g, r))
  {
    if r.move.Bank? {
      assert r in [r];
      var f1, g1 := f.(table := Tick(f.table, r)), g.(table := Tick(g.table, r));
      ChipsReadCredit(v, w, f1, g1, r.move.chips, r.height.Some?,
                      if r.height.Some? then r.createdAt else f1.table.lastConfirmedAt);
    }
  }

  /** A fold reads its verification map only to credit the chips it replays. */
  lemma {:induction false} FoldReadsCredit(cat: Catalog, v: Verified, w: Verified, f: Fold, g: Fold, rs: seq<Reply>)
    requires SameEconomy(f, g) && SameCredit(v, w, rs)
    ensures SameEconomy(FoldAll(cat, v, f, rs), FoldAll(cat, w, g, rs))
    decreases |rs|
  {
    if rs != [] {
      assert rs[0] in rs && forall r <- rs[1..] :: r in rs;
      StepReadsCredit(cat, v, w, f, g, rs[0]);
      FoldReadsCredit(cat, v, w, FoldStep(cat, v, f, rs[0]), FoldStep(cat, w, g, rs[0]), rs[1..]);
    }
  }

  /** A queued bank whose chip could be credited. */
  ghost predicate WorthBanking(m: QMove) {
    ChipProof(m).Some? && m.what.chips[0].bits >= BANK_MIN_BITS
  }

  /** Every dropped bank's proof is verified all the same. */
  ghost predicate StillSeeded(v: Verified, q: Queue, kept: Queue, table: nat, author: nat) {
    forall m :: Dropped(q, kept, table, author, m) && WorthBanking(m) ==> ChipProof(m).value in Seed(v, kept, table, author)
  }

  lemma SeedsCreditAlike(bits: (nat, nat) -> nat, v: Verified, q: Queue, kept: Queue, table: nat, author: nat, c: Chip)
    requires TrueBits(bits, v, q, table, author) && (forall m <- kept :: m in q) && StillSeeded(v, q, kept, table, author)
    ensures Creditable(Seed(v, q, table, author), c) <==> Creditable(Seed(v, kept, table, author), c)
  {
    var p := (c.ms, c.nonce);
    SeedIsTrue(bits, v, q, table, author);
    SeedIsTrue(bits, v, kept, table, author);
    SeedHas(v, q, table, author, p);
    SeedHas(v, kept, table, author, p);
    if p in Seed(v, q, table, author) && p !in Seed(v, kept, table, author) {
      var m :| m in q && Active(m, table, author) && ChipProof(m) == Some(p);
      assert Dropped(q, kept, table, author, m);
    }
  }

  /** A dropped bank is credited while it is queued. */
  lemma DroppedBankCredits(cat: Catalog, v: Verified, bits: (nat, nat) -> nat, pend: nat -> nat, base: seq<Reply>, q: Queue,
                           table: nat, author: nat, m: QMove)
    requires CidNamesReply(base + Overlay(pend, q, table, author), author) && TrueBits(bits, v, q, table, author)
    requires m in q && Active(m, table, author) && WorthBanking(m) && HasTwin(pend, base, q, table, author, m)
    ensures ChipProof(m).value in Shown(cat, v, pend, base, q, table, author).proofs
  {
    var all, p, chip, s := base + Overlay(pend, q, table, author), ChipProof(m).value, m.what.chips[0], Seed(v, q, table, author);
    var r :| r in base && r.author == author && StandsIn(all, Synthetic(pend, m), r);
    ReplayedIs(all, author);
    assert r in all && r in Replay(all, author);
    SeedHas(v, q, table, author, p);
    SeedIsTrue(bits, v, q, table, author);
    assert chip in r.move.chips && Creditable(s, chip) && Banks(s, r, p);
    FoldCounts(cat, s, ChipsEngine.START, Replay(all, author), p, SeenTip(0));
  }

  /**
   Retiring entries the base has twins of leaves the displayed table, its credited
   proofs and its seen moves as they were if and only if every retired bank's
   proof is still verified without it.
   */
  lemma RetiringIsInvisibleIff(cat: Catalog, v: Verified, bits: (nat, nat) -> nat, pend: nat -> nat, base: seq<Reply>, q: Queue,
                               kept: Queue, table: nat, author: nat)
    requires CidNamesReply(base + Overlay(pend, q, table, author), author) && TrueBits(bits, v, q, table, author)
    requires AllTwinned(pend, base, q, kept, table, author)
    ensures SameEconomy(Shown(cat, v, pend, base, q, table, author), Shown(cat, v, pend, base, kept, table, author)) <==>
            StillSeeded(v, q, kept, table, author)
  {
    if StillSeeded(v, q, kept, table, author) {
      SeededIsInvisible(cat, v, bits, pend, base, q, kept, table, author);
    } else {
      var m :| Dropped(q, kept, table, author, m) && WorthBanking(m) && ChipProof(m).value !in Seed(v, kept, table, author);
      DroppedBankCredits(cat, v, bits, pend, base, q, table, author, m);
      FoldCounts(cat, Seed(v, kept, table, author), ChipsEngine.START, Replay(base + Overlay(pend, kept, table, author), author),
                 ChipProof(m).value, SeenTip(0));
    }
  }

  lemma SeededIsInvisible(cat: Catalog, v: Verified, bits: (nat, nat) -> nat, pend: nat -> nat, base: seq<Reply>, q: Queue,
                          kept: Queue, table: nat, author: nat)
    requires CidNamesReply(base + Overlay(pend, q, table, author), author) && TrueBits(bits, v, q, table, author)
    requires AllTwinned(pend, base, q, kept, table, author) && StillSeeded(v, q, kept, table, author)
    ensures SameEconomy(Shown(cat, v, pend, base, q, table, author), Shown(cat, v, pend, base, kept, table, author))
  {
    var s, u := Seed(v, q, table, author), Seed(v, kept, table, author);
    DroppedUnderOneMap(cat, s, pend, base, q, kept, table, author);
    forall c
      ensures Creditable(s, c) <==> Creditable(u, c)
    {
      SeedsCreditAlike(bits, v, q, kept, table, author, c);
    }
    FoldReadsCredit(cat, s, u, ChipsEngine.START, ChipsEngine.START, Replay(base + Overlay(pend, kept, table, author), author));
  }

  // ------------------------------------------------------------------ which entries have twins

  /** A copy of a guarded reply that is in a block stands in for the entry. */
  lemma ConfirmedTwin(pend: nat -> nat, base: seq<Reply>, q: Queue, table: nat, author: nat, m: QMove, r: Reply)
    requires r in base && r.author == author && SelfGuarded(r.move) && IsCopy(Synthetic(pend, m), r)
    requires r.height.Some? && r.height.value < MAX_SAFE_INTEGER
    ensures HasTwin(pend, base, q, table, author, m)
  {
    assert Less(r, Synthetic(pend, m));
    assert StandsIn(base + Overlay(pend, q, table, author), Synthetic(pend, m), r);
  }

  /**
   So does one still in the mempool, as long as whatever else is pending from the
   same millisecond is harmless; of a batch, for the chip that dates it and for
   every later one.
   */
  lemma MempoolTwin(pend: nat -> nat, base: seq<Reply>, q: Queue, table: nat, author: nat, m: QMove, r: Reply)
    requires Active(m, table, author) && r in base && r.author == author && SelfGuarded(r.move) && IsCopy(Synthetic(pend, m), r)
    requires r.height.None? && r.cid != pend(m.id)
    requires r.move.Bank? ==> r.ms <= AuthoredAt(m) && (r.ms == AuthoredAt(m) ==> m.what.chips[0] == r.move.chips[0])
    requires forall x <- base + Overlay(pend, q, table, author) ::
               x.author == author && x.height.None? && x.ms == AuthoredAt(m) ==> x == r || Harmless(x, Synthetic(pend, m))
    requires forall x <- base :: x.height.Some? ==> x.height.value < MAX_SAFE_INTEGER
    ensures HasTwin(pend, base, q, table, author, m)
  {
    var all, p := base + Overlay(pend, q, table, author), Synthetic(pend, m);
    if !Less(r, p) {
      OverlayIs(pend, q, table, author);
      assert r.ms == p.ms && Leads(p, r);
    }
    assert StandsIn(all, p, r);
  }

  const TIED_DIP: Reply := Reply(1, 200, None, 0, 5, Dip(10))
  const DIP_ENTRY: QMove := QMove(1, 1, 1, Dip(10), 5, Some(9))
  const BUY_ENTRY: QMove := QMove(2, 1, 1, Buy("knob"), 5, None)

  ghost function TiedPend(): nat -> nat {
    id => 100 + id
  }

  lemma OverlayOfOne(pend: nat -> nat, m: QMove)
    requires Active(m, 1, 1) && Submittable(m)
    ensures Overlay(pend, [m], 1, 1) == [Synthetic(pend, m)]
  {
    OverlayAppend(pend, [], m, 1, 1);
    assert [] + [m] == [m];
  }

  lemma OverlayOfTwo(pend: nat -> nat, m: QMove, o: QMove)
    requires Active(m, 1, 1) && Submittable(m) && Active(o, 1, 1) && Submittable(o)
    ensures Overlay(pend, [m, o], 1, 1) == [Synthetic(pend, m), Synthetic(pend, o)]
  {
    OverlayOfOne(pend, m);
    OverlayAppend(pend, [m], o, 1, 1);
    assert [m] + [o] == [m, o];
  }

  lemma TiedReplays(d: Reply, b: Reply)
    requires d == TIED_DIP.(cid := 101) && b == Reply(1, 102, None, 0, 5, Buy("knob"))
    ensures Replay([TIED_DIP] + [d, b], 1) == [d, b, TIED_DIP] && Replay([TIED_DIP] + [b], 1) == [b, TIED_DIP]
  {
    ReplayIs([TIED_DIP] + [d, b], [d, b, TIED_DIP], 1);
    ReplayIs([TIED_DIP] + [b], [b, TIED_DIP], 1);
  }

  lemma ReplayIs(rs: seq<Reply>, xs: seq<Reply>, owner: nat)
    requires CidNamesReply(rs, owner) && OwnReplay(xs, owner) && forall r :: r in xs <==> r in rs && r.author == owner
    ensures Replay(rs, owner) == xs
  {
    ReplayedIs(rs, owner);
    IncreasingUnique(Replay(rs, owner), xs);
  }

  lemma {:induction false} NoBanksNoSeed(v: Verified, q: Queue, table: nat, author: nat)
    requires forall m <- q :: !m.what.Bank?
    ensures Seed(v, q, table, author) == v
    decreases |q|
  {
    if q != [] {
      assert q[|q| - 1] in q && forall m <- q[..|q| - 1] :: m in q;
      NoBanksNoSeed(v, q[..|q| - 1], table, author);
    }
  }

  /** A dip and a buy of one millisecond: once the dip's copy gives way to the reply in the mempool, the buy replays first and fails. */
  lemma TiedBuyIsUndone()
    ensures var pend, all := TiedPend(), [DIP_ENTRY, BUY_ENTRY];
            && IsCopy(Synthetic(pend, DIP_ENTRY), TIED_DIP) && StillSeeded(map[], all, [BUY_ENTRY], 1, 1)
            && Shown(ONE_JAR, map[], pend, [TIED_DIP], all, 1, 1).table.owned == {"knob"}
            && Shown(ONE_JAR, map[], pend, [TIED_DIP], [BUY_ENTRY], 1, 1).table.owned == {}
  {
    var pend := TiedPend();
    var d, b := Synthetic(pend, DIP_ENTRY), Synthetic(pend, BUY_ENTRY);
    assert IsKeyText("knob");
    OverlayOfTwo(pend, DIP_ENTRY, BUY_ENTRY);
    OverlayOfOne(pend, BUY_ENTRY);
    TiedReplays(d, b);
    NoBanksNoSeed(map[], [DIP_ENTRY, BUY_ENTRY], 1, 1);
    NoBanksNoSeed(map[], [BUY_ENTRY], 1, 1);
    DipThenBuy(d, b);
    BuyThenDip(b);
  }

  lemma ThreeSteps(cat: Catalog, v: Verified, f: Fold, a: Reply, b: Reply, c: Reply)
    ensures FoldAll(cat, v, f, [b, c]) == FoldStep(cat, v, FoldStep(cat, v, f, b), c)
    ensures FoldAll(cat, v, f, [a, b, c]) == FoldStep(cat, v, FoldStep(cat, v, FoldStep(cat, v, f, a), b), c)
  {
    assert [a, b, c][1..] == [b, c] && [b, c][1..] == [c] && [c][1..] == [];
    assert forall g :: FoldAll(cat, v, g, []) == g;
    assert forall g :: FoldAll(cat, v, g, [c]) == FoldStep(cat, v, g, c);
    assert forall g :: FoldAll(cat, v, g, [b, c]) == FoldStep(cat, v, FoldStep(cat, v, g, b), c);
  }

  lemma DipThenBuy(d: Reply, b: Reply)
    requires d == TIED_DIP.(cid := 101) && b == Reply(1, 102, None, 0, 5, Buy("knob"))
    ensures FoldAll(ONE_JAR, map[], ChipsEngine.START, [d, b, TIED_DIP]).table.owned == {"knob"}
  {
    ThreeSteps(ONE_JAR, map[], ChipsEngine.START, d, b, TIED_DIP);
    PendingDip(ONE_JAR, map[], ChipsEngine.START, d);
    var f := FoldStep(ONE_JAR, map[], ChipsEngine.START, d);
    assert f.table.crumbs == 10;
    BuysKnob(f, b);
    PendingDip(ONE_JAR, map[], FoldStep(ONE_JAR, map[], f, b), TIED_DIP);
  }

  lemma BuysKnob(f: Fold, b: Reply)
    requires b == Reply(1, 102, None, 0, 5, Buy("knob")) && f.table.crumbs == 10 && f.table.owned == {} && f.table.declined == {}
    ensures var g := FoldStep(ONE_JAR, map[], f, b); g.table.owned == {"knob"} && g.seen == f.seen
  {
    KnobIsOpen(f.table);
  }

  lemma BuyThenDip(b: Reply)
    requires b == Reply(1, 102, None, 0, 5, Buy("knob"))
    ensures FoldAll(ONE_JAR, map[], ChipsEngine.START, [b, TIED_DIP]).table.owned == {}
  {
    ThreeSteps(ONE_JAR, map[], ChipsEngine.START, b, b, TIED_DIP);
    KnobIsDear();
    PendingDip(ONE_JAR, map[], FoldStep(ONE_JAR, map[], ChipsEngine.START, b), TIED_DIP);
  }

  lemma KnobIsDear()
    ensures ApplyBuy(ONE_JAR, FRESH, "knob") == (FRESH, RejectedCost)
  {
    assert "knob" in ONE_JAR.jars && ONE_JAR.jars["knob"].cost == 10 && ChainOf(ONE_JAR.chains, "knob") == None;
  }
}

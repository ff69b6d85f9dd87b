/**
 A settling move is folded twice: the confirmed reply and the local copy that
 stays in the queue (chips-client/src/lib/chipsSettling.ts, chipsEngine.ts).
 When is the second application a no-op?
 */
module ChipsCopies {
  import opened Wrappers
  import opened ChipsEngine

  /** The two folds differ at most in the log of outcomes. */
  ghost predicate SameEconomy(f: Fold, g: Fold) {
    f.table == g.table && f.proofs == g.proofs && f.seen == g.seen
  }

  // ------------------------------------------------------------------ what a fold never forgets

  lemma {:induction false} ChipsGrow(v: Verified, f: Fold, chips: seq<Chip>, confirmed: bool, at: nat)
    ensures var g := ApplyChips(v, f, chips, confirmed, at);
            f.proofs <= g.proofs && f.seen == g.seen && g.table.charOwned == f.table.charOwned
            && g.table.tips == f.table.tips && g.table.owned == f.table.owned && g.table.declined == f.table.declined
    decreases |chips|
  {
    if chips != [] {
      ChipsGrow(v, ApplyChip(v, f, chips[0], confirmed, at), chips[1..], confirmed, at);
    }
  }

  /** Abilities stay, bowls only add up, and within one bowl jars and refusals stay. */
  ghost predicate Grown(t: Table, u: Table) {
    && t.charOwned <= u.charOwned && t.tips <= u.tips
    && (u.tips == t.tips ==> t.owned <= u.owned && t.declined <= u.declined)
  }

  lemma TipGrows(cat: Catalog, t: Table, keep: Option<Jar>, confirmed: bool, at: nat)
    ensures Grown(t, ApplyTip(cat, t, keep, confirmed, at).0)
  {
  }

  lemma BreakGrows(t: Table, confirmed: bool, at: nat)
    requires t.broken < DEEP_BAND_COUNT
    ensures Grown(t, BreakBand(t, confirmed, at))
  {
  }

  lemma BrokeGrows(t: Table, paid: nat, confirmed: bool, at: nat)
    ensures Grown(t, ApplyBroke(t, paid, confirmed, at).0)
  {
    var s := BrokeShape(t, paid, confirmed, at);
    if s.broken < DEEP_BAND_COUNT {
      BreakGrows(s, confirmed, at);
    }
  }

  lemma JarsGrow(cat: Catalog, t: Table, key: Jar, ability: string, cost: nat)
    ensures Grown(t, ApplyBuy(cat, t, key).0) && Grown(t, ApplyBurn(cat, t, key).0)
    ensures Grown(t, ApplySpend(t, ability, cost).0)
  {
  }

  /** Proofs, seen moves and abilities are never forgotten; jars and refusals only when the bowl goes over. */
  lemma StepRemembers(cat: Catalog, v: Verified, f: Fold, r: Reply)
    ensures var g := FoldStep(cat, v, f, r);
            f.proofs <= g.proofs && f.seen <= g.seen && Grown(f.table, g.table)
  {
    var t := Tick(f.table, r);
    var confirmed, at := r.height.Some?, if r.height.Some? then r.createdAt else t.lastConfirmedAt;
    match r.move {
      case Bank(chips) => ChipsGrow(v, f.(table := t), chips, confirmed, at);
      case Tip(keep) => TipGrows(cat, t, keep, confirmed, at);
      case Broke(paid) => BrokeGrows(t, paid, confirmed, at);
      case Buy(key) => JarsGrow(cat, t, key, "", 0);
      case Burn(key) => JarsGrow(cat, t, key, "", 0);
      case Spend(ability, cost) => JarsGrow(cat, t, "", ability, cost);
      case Dip(amount) =>
      case Oversize =>
      case Unparsed =>
    }
  }

  lemma {:induction false} FoldRemembers(cat: Catalog, v: Verified, f: Fold, rs: seq<Reply>)
    ensures var g := FoldAll(cat, v, f, rs);
            f.proofs <= g.proofs && f.seen <= g.seen && Grown(f.table, g.table)
    decreases |rs|
  {
    if rs != [] {
      StepRemembers(cat, v, f, rs[0]);
      FoldRemembers(cat, v, FoldStep(cat, v, f, rs[0]), rs[1..]);
    }
  }

  // ------------------------------------------------------------------ banks, dips, tips and blows

  /** This chip can no longer be credited. */
  ghost predicate ChipSpent(v: Verified, f: Fold, chip: Chip) {
    var key := (chip.ms, chip.nonce);
    key !in v || chip.bits < BANK_MIN_BITS || v[key] < chip.bits || key in f.proofs
  }

  lemma {:induction false} ChipsSpendAll(v: Verified, f: Fold, chips: seq<Chip>, confirmed: bool, at: nat, chip: Chip)
    requires chip in chips
    ensures ChipSpent(v, ApplyChips(v, f, chips, confirmed, at), chip)
    decreases |chips|
  {
    var g := ApplyChip(v, f, chips[0], confirmed, at);
    if chip == chips[0] {
      ChipsGrow(v, g, chips[1..], confirmed, at);
    } else {
      ChipsSpendAll(v, g, chips[1..], confirmed, at, chip);
    }
  }

  /** `p` is the pending copy of a move that reply `r` carries; a queued bank holds one chip of the batch. */
  ghost predicate IsCopy(p: Reply, r: Reply) {
    && p.height.None?
    && if r.move.Bank? then p.move.Bank? && |p.move.chips| == 1 && p.move.chips[0] in r.move.chips
       else p.move == r.move && p.ms == r.ms
  }

  ghost predicate SelfGuarded(m: Move) {
    m.Bank? || m.Dip? || m.Tip? || m.Broke?
  }

  /** After its twin, a copy of a guarded move can no longer take effect. */
  ghost predicate Inert(v: Verified, f: Fold, p: Reply) {
    match p.move
    case Bank(chips) => |chips| == 1 && ChipSpent(v, f, chips[0])
    case Dip(_) => SeenKey(p).value in f.seen
    case Tip(_) => SeenKey(p).value in f.seen
    case Broke(_) => SeenKey(p).value in f.seen
    case _ => false
  }

  lemma TwinMakesInert(cat: Catalog, v: Verified, f: Fold, r: Reply, p: Reply)
    requires SelfGuarded(r.move) && IsCopy(p, r)
    ensures Inert(v, FoldStep(cat, v, f, r), p)
  {
    if r.move.Bank? {
      var f1 := f.(table := Tick(f.table, r));
      ChipsSpendAll(v, f1, r.move.chips, r.height.Some?,
                    if r.height.Some? then r.createdAt else f1.table.lastConfirmedAt, p.move.chips[0]);
    }
  }

  lemma InertIsNoOp(cat: Catalog, v: Verified, f: Fold, p: Reply)
    requires Inert(v, f, p) && p.height.None?
    ensures SameEconomy(FoldStep(cat, v, f, p), f)
  {
    if p.move.Bank? {
      var chip := p.move.chips[0];
      var at := f.table.lastConfirmedAt;
      assert p.move.chips == [chip] && [chip][1..] == [];
      assert ApplyChips(v, f, [chip], false, at) == ApplyChips(v, ApplyChip(v, f, chip, false, at), [], false, at);
    }
  }

  /** Folds that differ in their logs only go on doing so. */
  lemma {:induction false} ChipsRespect(v: Verified, f: Fold, g: Fold, chips: seq<Chip>, confirmed: bool, at: nat)
    requires SameEconomy(f, g)
    ensures SameEconomy(ApplyChips(v, f, chips, confirmed, at), ApplyChips(v, g, chips, confirmed, at))
    decreases |chips|
  {
    if chips != [] {
      ChipsRespect(v, ApplyChip(v, f, chips[0], confirmed, at), ApplyChip(v, g, chips[0], confirmed, at), chips[1..], confirmed, at);
    }
  }

  lemma StepRespects(cat: Catalog, v: Verified, f: Fold, g: Fold, r: Reply)
    requires SameEconomy(f, g)
    ensures SameEconomy(FoldStep(cat, v, f, r), FoldStep(cat, v, g, r))
  {
    if r.move.Bank? {
      var f1, g1 := f.(table := Tick(f.table, r)), g.(table := Tick(g.table, r));
      ChipsRespect(v, f1, g1, r.move.chips, r.height.Some?,
                   if r.height.Some? then r.createdAt else f1.table.lastConfirmedAt);
    }
  }

  /** `rs` without the replies in `gone`. */
  ghost function Removed(rs: seq<Reply>, gone: set<Reply>): seq<Reply> {
    if rs == [] then []
    else if rs[0] in gone then Removed(rs[1..], gone)
    else [rs[0]] + Removed(rs[1..], gone)
  }

  /** Reply `j` of the run is a pending copy of a guarded move replayed earlier. */
  ghost predicate FollowsTwin(rs: seq<Reply>, j: nat) {
    j < |rs| && exists i :: 0 <= i < j && SelfGuarded(rs[i].move) && IsCopy(rs[j], rs[i])
  }

  lemma TwinSteps(cat: Catalog, v: Verified, f: Fold, rs: seq<Reply>, j: nat)
    requires 0 < j < |rs| && rs[j].height.None? && (Inert(v, f, rs[j]) || FollowsTwin(rs, j))
    ensures Inert(v, FoldStep(cat, v, f, rs[0]), rs[1..][j - 1]) || FollowsTwin(rs[1..], j - 1)
  {
    StepRemembers(cat, v, f, rs[0]);
    if !Inert(v, f, rs[j]) {
      var i :| 0 <= i < j && SelfGuarded(rs[i].move) && IsCopy(rs[j], rs[i]);
      if i == 0 {
        TwinMakesInert(cat, v, f, rs[0], rs[j]);
      } else {
        assert rs[1..][i - 1] == rs[i] && rs[1..][j - 1] == rs[j];
      }
    }
  }

  lemma {:induction false} CopiesAnywhere(cat: Catalog, v: Verified, f: Fold, g: Fold, rs: seq<Reply>, gone: set<Reply>)
    requires SameEconomy(f, g)
    requires forall j | 0 <= j < |rs| && rs[j] in gone :: rs[j].height.None? && (Inert(v, f, rs[j]) || FollowsTwin(rs, j))
    ensures SameEconomy(FoldAll(cat, v, f, rs), FoldAll(cat, v, g, Removed(rs, gone)))
    decreases |rs|
  {
    if rs != [] {
      var f' := FoldStep(cat, v, f, rs[0]);
      forall j | 0 <= j < |rs[1..]| && rs[1..][j] in gone
        ensures rs[1..][j].height.None? && (Inert(v, f', rs[1..][j]) || FollowsTwin(rs[1..], j))
      {
        assert rs[1..][j] == rs[j + 1];
        TwinSteps(cat, v, f, rs, j + 1);
      }
      if rs[0] in gone {
        assert !FollowsTwin(rs, 0);
        InertIsNoOp(cat, v, f, rs[0]);
        CopiesAnywhere(cat, v, f', g, rs[1..], gone);
      } else {
        StepRespects(cat, v, f, g, rs[0]);
        var g' := FoldStep(cat, v, g, rs[0]);
        CopiesAnywhere(cat, v, f', g', rs[1..], gone);
        assert ([rs[0]] + Removed(rs[1..], gone))[1..] == Removed(rs[1..], gone);
      }
    }
  }

  /**
   Settling copies of banks, dips, tips and blows change nothing, wherever after
   their twins they stand among other moves: dropping any of them leaves the
   same table.
   */
  lemma SettlingCopiesAreInvisible(cat: Catalog, v: Verified, f: Fold, rs: seq<Reply>, gone: set<Reply>)
    requires forall j | 0 <= j < |rs| && rs[j] in gone :: rs[j].height.None? && FollowsTwin(rs, j)
    ensures SameEconomy(FoldAll(cat, v, f, rs), FoldAll(cat, v, f, Removed(rs, gone)))
  {
    CopiesAnywhere(cat, v, f, f, rs, gone);
  }

  // ------------------------------------------------------------------ buys, refusals, abilities

  ghost function LastOutcome(f: Fold): Option<Outcome> {
    if f.moves == [] then None else Some(f.moves[|f.moves| - 1])
  }

  /** Abilities survive every bowl, so an honoured spend is never charged again. */
  lemma SpendCopyIsNoOp(cat: Catalog, v: Verified, f: Fold, r: Reply, rest: seq<Reply>, p: Reply)
    requires r.move.Spend? && LastOutcome(FoldStep(cat, v, f, r)) == Some(Spent) && IsCopy(p, r)
    ensures var g := FoldAll(cat, v, FoldStep(cat, v, f, r), rest);
            SameEconomy(FoldStep(cat, v, g, p), g)
  {
    FoldRemembers(cat, v, FoldStep(cat, v, f, r), rest);
  }

  /** Everything the fold asks of a purchase. */
  predicate Buyable(cat: Catalog, t: Table, key: Jar) {
    key in cat.jars && key !in t.owned && key !in t.declined && InOrder(cat, t.owned, key) && t.crumbs >= cat.jars[key].cost
  }

  /** Everything the fold asks of a refusal. */
  predicate Refusable(cat: Catalog, t: Table, key: Jar) {
    key in cat.jars && key !in t.owned && key !in t.declined && InOrder(cat, t.owned, key)
  }

  /** The copy of an honoured buy is applied again exactly when the bowl has gone over since and the jar is for sale anew. */
  lemma BuyCopyActsIff(cat: Catalog, v: Verified, f: Fold, r: Reply, rest: seq<Reply>, p: Reply)
    requires IsCopy(p, r) && r.move.Buy? && LastOutcome(FoldStep(cat, v, f, r)) == Some(Bought)
    ensures var g := FoldAll(cat, v, FoldStep(cat, v, f, r), rest);
            !SameEconomy(FoldStep(cat, v, g, p), g) <==> g.table.tips > f.table.tips && Buyable(cat, g.table, r.move.key)
  {
    FoldRemembers(cat, v, FoldStep(cat, v, f, r), rest);
  }

  /** The copy of an honoured refusal is applied again exactly when the bowl has gone over since and the jar may be refused anew. */
  lemma BurnCopyActsIff(cat: Catalog, v: Verified, f: Fold, r: Reply, rest: seq<Reply>, p: Reply)
    requires IsCopy(p, r) && r.move.Burn? && LastOutcome(FoldStep(cat, v, f, r)) == Some(Burned)
    ensures var g := FoldAll(cat, v, FoldStep(cat, v, f, r), rest);
            !SameEconomy(FoldStep(cat, v, g, p), g) <==> g.table.tips > f.table.tips && Refusable(cat, g.table, r.move.key)
  {
    FoldRemembers(cat, v, FoldStep(cat, v, f, r), rest);
    var g := FoldAll(cat, v, FoldStep(cat, v, f, r), rest);
    if Refusable(cat, g.table, r.move.key) {
      assert r.move.key in FoldStep(cat, v, g, p).table.declined;
    }
  }

  const ONE_JAR: Catalog :=
    Catalog(map["knob" := Upgrade(10, None, None, None, false, None, None, 0)], [])

  const FIRST_DIP: Reply := Reply(1, 1, Some(1), 5, 1, Dip(4_000_000))
  const FIRST_BUY: Reply := Reply(1, 2, Some(2), 6, 2, Buy("knob"))
  const THE_TIP: Reply := Reply(1, 3, Some(3), 7, 3, Tip(None))
  const SECOND_DIP: Reply := Reply(1, 4, Some(4), 8, 4, Dip(10))

  /** The part of a table the witness needs. */
  ghost predicate Holds(f: Fold, crumbs: nat, lifetime: nat, owned: set<Jar>, at: nat, seen: set<Seen>) {
    && f.table.crumbs == crumbs && f.table.lifetimeChips == lifetime && f.table.owned == owned && f.seen == seen
    && f.table.lastConfirmedAt == at && f.table.declined == {} && f.table.bowlCap == START_BOWL_CAP
  }

  lemma AfterFirstDip(v: Verified)
    ensures Holds(FoldStep(ONE_JAR, v, START, FIRST_DIP), 1_000_000, 4_000, {}, 5, {SeenDip(4_000_000, 1)})
  {
  }

  /** Less than an hour after the last confirmed move nothing goes soggy. */
  lemma SameHour(t: Table, r: Reply)
    requires r.height.Some? && t.lastConfirmedAt <= r.createdAt < t.lastConfirmedAt + HOUR_MS
    ensures Tick(t, r) == t.(lastConfirmedAt := r.createdAt)
  {
    assert SogHours(t.lastConfirmedAt, r.createdAt) == 0;
    assert Soggy(t.crumbs, SogNum(t), 0) == t.crumbs;
  }

  lemma KnobIsOpen(t: Table)
    requires t.crumbs >= 10 && t.owned == {} && t.declined == {}
    ensures ApplyBuy(ONE_JAR, t, "knob").1 == Bought
    ensures var u := ApplyBuy(ONE_JAR, t, "knob").0;
            u.crumbs == t.crumbs - 10 && u.owned == {"knob"} && u.lifetimeChips == t.lifetimeChips
            && u.declined == {} && u.bowlCap == t.bowlCap && u.lastConfirmedAt == t.lastConfirmedAt
  {
    assert "knob" in ONE_JAR.jars && ONE_JAR.jars["knob"].cost == 10;
    assert ChainOf(ONE_JAR.chains, "knob") == None;
  }

  lemma AfterFirstBuy(v: Verified, f: Fold)
    requires Holds(f, 1_000_000, 4_000, {}, 5, {SeenDip(4_000_000, 1)})
    ensures Holds(FoldStep(ONE_JAR, v, f, FIRST_BUY), 999_990, 4_000, {"knob"}, 6, {SeenDip(4_000_000, 1)})
  {
    SameHour(f.table, FIRST_BUY);
    KnobIsOpen(f.table.(lastConfirmedAt := 6));
  }

  lemma AfterTip(v: Verified, f: Fold)
    requires Holds(f, 999_990, 4_000, {"knob"}, 6, {SeenDip(4_000_000, 1)})
    ensures Holds(FoldStep(ONE_JAR, v, f, THE_TIP), 0, 0, {}, 7, {SeenDip(4_000_000, 1), SeenTip(3)})
  {
    SameHour(f.table, THE_TIP);
    var t := f.table.(lastConfirmedAt := 7);
    assert SaltFor(t.lifetimeChips) > 0;
    assert ApplyTip(ONE_JAR, t, None, true, 7).0.lastConfirmedAt == 7;
  }

  lemma AfterSecondDip(v: Verified, f: Fold)
    requires Holds(f, 0, 0, {}, 7, {SeenDip(4_000_000, 1), SeenTip(3)})
    ensures Holds(FoldStep(ONE_JAR, v, f, SECOND_DIP), 10, 1, {}, 8, {SeenDip(4_000_000, 1), SeenTip(3), SeenDip(10, 4)})
  {
    SameHour(f.table, SECOND_DIP);
  }

  /**
   Across a tip the guard is gone: the bought jar is bought a second time, with
   the new bowl's crumbs, as long as the copy of the first purchase lingers.
   */
  lemma BuyCopyRebuysAfterTip(v: Verified)
    ensures var g := FoldAll(ONE_JAR, v, START, [FIRST_DIP, FIRST_BUY, THE_TIP, SECOND_DIP]);
            var copy := FIRST_BUY.(height := None);
            && IsCopy(copy, FIRST_BUY) && g.table.owned == {} && g.table.crumbs == 10
            && FoldStep(ONE_JAR, v, g, copy).table.owned == {"knob"} && FoldStep(ONE_JAR, v, g, copy).table.crumbs == 0
  {
    var f1 := FoldStep(ONE_JAR, v, START, FIRST_DIP);
    AfterFirstDip(v);
    var f2 := FoldStep(ONE_JAR, v, f1, FIRST_BUY);
    AfterFirstBuy(v, f1);
    var f3 := FoldStep(ONE_JAR, v, f2, THE_TIP);
    AfterTip(v, f2);
    var f4 := FoldStep(ONE_JAR, v, f3, SECOND_DIP);
    AfterSecondDip(v, f3);
    FourSteps(v, f1, f2, f3, f4);
    KnobIsOpen(f4.table);
  }

  lemma FourSteps(v: Verified, f1: Fold, f2: Fold, f3: Fold, f4: Fold)
    requires f1 == FoldStep(ONE_JAR, v, START, FIRST_DIP) && f2 == FoldStep(ONE_JAR, v, f1, FIRST_BUY)
    requires f3 == FoldStep(ONE_JAR, v, f2, THE_TIP) && f4 == FoldStep(ONE_JAR, v, f3, SECOND_DIP)
    ensures FoldAll(ONE_JAR, v, START, [FIRST_DIP, FIRST_BUY, THE_TIP, SECOND_DIP]) == f4
  {
    var r4 := [SECOND_DIP];
    var r3 := [THE_TIP, SECOND_DIP];
    var r2 := [FIRST_BUY, THE_TIP, SECOND_DIP];
    assert r4[1..] == [] && r3[1..] == r4 && r2[1..] == r3;
    assert [FIRST_DIP, FIRST_BUY, THE_TIP, SECOND_DIP][1..] == r2;
    assert FoldAll(ONE_JAR, v, f4, []) == f4;
    assert FoldAll(ONE_JAR, v, f3, r4) == f4;
    assert FoldAll(ONE_JAR, v, f2, r3) == f4;
    assert FoldAll(ONE_JAR, v, f1, r2) == f4;
  }

  const FIRST_BURN: Reply := Reply(1, 2, Some(2), 6, 2, Burn("knob"))

  lemma AfterFirstBurn(v: Verified, f: Fold)
    requires Holds(f, 1_000_000, 4_000, {}, 5, {SeenDip(4_000_000, 1)})
    ensures var g := FoldStep(ONE_JAR, v, f, FIRST_BURN);
            g.table.declined == {"knob"} && g.table.lifetimeChips == 4_000 && g.table.lastConfirmedAt == 6 && g.seen == f.seen
    ensures LastOutcome(FoldStep(ONE_JAR, v, f, FIRST_BURN)) == Some(Burned)
  {
    SameHour(f.table, FIRST_BURN);
    assert "knob" in ONE_JAR.jars && ChainOf(ONE_JAR.chains, "knob") == None;
  }

  lemma TipAfterBurn(v: Verified, f: Fold)
    requires f.table.lifetimeChips == 4_000 && f.table.lastConfirmedAt == 6 && f.seen == {SeenDip(4_000_000, 1)}
    ensures var g := FoldStep(ONE_JAR, v, f, THE_TIP).table;
            g.crumbs == 0 && g.declined == {} && g.owned == {} && g.bowlCap == START_BOWL_CAP
  {
    var t := Tick(f.table, THE_TIP);
    assert t.lifetimeChips == 4_000 && SaltFor(4_000) > 0;
  }

  /** Across a tip a lingering copy of a refusal is honoured a second time and pays a second refund. */
  lemma BurnCopyPaysAgainAfterTip(v: Verified)
    ensures var g := FoldAll(ONE_JAR, v, START, [FIRST_DIP, FIRST_BURN, THE_TIP]);
            var copy := FIRST_BURN.(height := None);
            && IsCopy(copy, FIRST_BURN) && g.table.declined == {} && g.table.crumbs == 0
            && FoldStep(ONE_JAR, v, g, copy).table.declined == {"knob"} && FoldStep(ONE_JAR, v, g, copy).table.crumbs == 7
  {
    var f1 := FoldStep(ONE_JAR, v, START, FIRST_DIP);
    AfterFirstDip(v);
    var f2 := FoldStep(ONE_JAR, v, f1, FIRST_BURN);
    AfterFirstBurn(v, f1);
    var f3 := FoldStep(ONE_JAR, v, f2, THE_TIP);
    TipAfterBurn(v, f2);
    BurnFoldIs(v, f1, f2, f3);
    CopyBurnsAgain(v, f3);
  }

  lemma BurnFoldIs(v: Verified, f1: Fold, f2: Fold, f3: Fold)
    requires f1 == FoldStep(ONE_JAR, v, START, FIRST_DIP) && f2 == FoldStep(ONE_JAR, v, f1, FIRST_BURN)
    requires f3 == FoldStep(ONE_JAR, v, f2, THE_TIP)
    ensures FoldAll(ONE_JAR, v, START, [FIRST_DIP, FIRST_BURN, THE_TIP]) == f3
  {
    assert [THE_TIP][1..] == [] && [FIRST_BURN, THE_TIP][1..] == [THE_TIP];
    assert [FIRST_DIP, FIRST_BURN, THE_TIP][1..] == [FIRST_BURN, THE_TIP];
    assert FoldAll(ONE_JAR, v, f3, []) == f3;
    assert FoldAll(ONE_JAR, v, f2, [THE_TIP]) == f3;
    assert FoldAll(ONE_JAR, v, f1, [FIRST_BURN, THE_TIP]) == f3;
  }

  lemma CopyBurnsAgain(v: Verified, f: Fold)
    requires f.table.crumbs == 0 && f.table.declined == {} && f.table.owned == {} && f.table.bowlCap == START_BOWL_CAP
    ensures var t := FoldStep(ONE_JAR, v, f, FIRST_BURN.(height := None)).table; t.declined == {"knob"} && t.crumbs == 7
  {
    assert "knob" in ONE_JAR.jars && ChainOf(ONE_JAR.chains, "knob") == None && Scale(10, 70, 100) == 7;
  }
}

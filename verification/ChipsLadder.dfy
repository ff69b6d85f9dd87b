/**
 The upgrade ladders: which rung may be bought or refused next, as the fold, the
 shelf and the pay-time checks each decide it
 (chips-client/src/lib/chipsEngine.ts, src/Tunnel.tsx, src/App.tsx, src/lib/crew.ts).
 */
module ChipsLadder {
  import opened Wrappers
  import opened ChipsEngine

  /** No rung appears twice, in one ladder or in two. */
  ghost predicate WellFormed(cat: Catalog) {
    && (forall c, i, j | 0 <= c < |cat.chains| && 0 <= i < j < |cat.chains[c]| :: cat.chains[c][i] != cat.chains[c][j])
    && (forall c, d | 0 <= c < d < |cat.chains| :: forall k <- cat.chains[c] :: k !in cat.chains[d])
  }

  // ------------------------------------------------------------------ the client's own predicates

  /** The first rung not yet owned, as the shelf picks it. */
  function NextRung(chain: seq<Jar>, owned: set<Jar>): Option<Jar> {
    if chain == [] then None else if chain[0] !in owned then Some(chain[0]) else NextRung(chain[1..], owned)
  }

  /** The first missing rung below `key`, as the pay-time check reports it. */
  function PrefixMissing(chain: seq<Jar>, owned: set<Jar>, key: Jar): Option<Jar> {
    if chain == [] || chain[0] == key then None
    else if chain[0] !in owned then Some(chain[0]) else PrefixMissing(chain[1..], owned, key)
  }

  /** Jars on the shelf: the next rung of each ladder and every loose jar, unless refused, for vendors already met. */
  ghost predicate OnShelf(cat: Catalog, owned: set<Jar>, declined: set<Jar>, available: Jar -> bool, key: Jar) {
    && key in cat.jars && key !in declined && available(key)
    && match ChainOf(cat.chains, key)
       case Some(chain) => NextRung(chain, owned) == Some(key)
       case None => key !in owned
  }

  /** Whether the refuse button is offered for `key`. */
  ghost predicate Refusable(cat: Catalog, owned: set<Jar>, declined: set<Jar>, key: Jar) {
    && key in cat.jars && key !in owned && key !in declined
    && match ChainOf(cat.chains, key)
       case Some(chain) => forall p <- Below(chain, key) :: p in owned
       case None => true
  }

  /** The rungs listed before `key`. */
  function Below(chain: seq<Jar>, key: Jar): seq<Jar> {
    if chain == [] || chain[0] == key then [] else [chain[0]] + Below(chain[1..], key)
  }

  // ------------------------------------------------------------------ they agree

  lemma {:induction false} PrefixOwnedIff(chain: seq<Jar>, owned: set<Jar>, key: Jar)
    requires key in chain
    ensures PrefixOwned(chain, owned, key) <==> PrefixMissing(chain, owned, key) == None
    ensures PrefixOwned(chain, owned, key) <==> forall p <- Below(chain, key) :: p in owned
    decreases |chain|
  {
    if chain[0] != key {
      PrefixOwnedIff(chain[1..], owned, key);
      assert Below(chain, key) == [chain[0]] + Below(chain[1..], key);
    }
  }

  /** A rung is the shelf's next one exactly when it is unowned and nothing below it is missing. */
  lemma {:induction false} NextRungIff(chain: seq<Jar>, owned: set<Jar>, key: Jar)
    requires key in chain
    ensures NextRung(chain, owned) == Some(key) <==> key !in owned && PrefixMissing(chain, owned, key) == None
    decreases |chain|
  {
    if chain[0] != key {
      NextRungIff(chain[1..], owned, key);
    } else if chain[0] in owned {
      NextRungIsUnowned(chain[1..], owned);
    }
  }

  lemma {:induction false} NextRungIsUnowned(chain: seq<Jar>, owned: set<Jar>)
    ensures NextRung(chain, owned).Some? ==> NextRung(chain, owned).value !in owned && NextRung(chain, owned).value in chain
    decreases |chain|
  {
    if chain != [] {
      NextRungIsUnowned(chain[1..], owned);
    }
  }

  lemma {:induction false} ChainOfHasKey(chains: seq<seq<Jar>>, key: Jar)
    ensures match ChainOf(chains, key)
            case Some(chain) => key in chain && exists c :: 0 <= c < |chains| && chains[c] == chain
            case None => forall c | 0 <= c < |chains| :: key !in chains[c]
    decreases |chains|
  {
    if chains != [] && key !in chains[0] {
      ChainOfHasKey(chains[1..], key);
      var rest := chains[1..];
      match ChainOf(rest, key) {
        case Some(chain) =>
          var c :| 0 <= c < |rest| && rest[c] == chain;
          assert chains[c + 1] == chain;
        case None =>
          forall c | 0 <= c < |chains|
            ensures key !in chains[c]
          {
            if c > 0 {
              assert rest[c - 1] == chains[c];
            }
          }
      }
    }
  }

  /**
   Lit jars are deliverable and deliverable jars are lit: a jar is on the shelf
   exactly when its vendor has been met and the fold would refuse a buy of it,
   if at all, only for its price.
   */
  lemma ShelfAgreesWithFold(cat: Catalog, t: Table, available: Jar -> bool, key: Jar)
    ensures OnShelf(cat, t.owned, t.declined, available, key)
            <==> available(key) && ApplyBuy(cat, t, key).1 in {Bought, RejectedCost}
    ensures ApplyBuy(cat, t, key).1 == Bought ==> t.crumbs >= cat.jars[key].cost
  {
    ChainOfHasKey(cat.chains, key);
    if ChainOf(cat.chains, key).Some? {
      PrefixOwnedIff(ChainOf(cat.chains, key).value, t.owned, key);
      NextRungIff(ChainOf(cat.chains, key).value, t.owned, key);
    }
  }

  /** The refuse button is offered exactly when the fold would honour the refusal. */
  lemma RefusableAgreesWithFold(cat: Catalog, t: Table, key: Jar)
    ensures Refusable(cat, t.owned, t.declined, key) <==> ApplyBurn(cat, t, key).1 == Burned
  {
    ChainOfHasKey(cat.chains, key);
    if ChainOf(cat.chains, key).Some? {
      PrefixOwnedIff(ChainOf(cat.chains, key).value, t.owned, key);
    }
  }

  // ------------------------------------------------------------------ ladders over whole folds

  /** `key` is rung `i` of ladder `c`. */
  ghost predicate Rung(cat: Catalog, c: nat, i: nat, key: Jar) {
    c < |cat.chains| && i < |cat.chains[c]| && cat.chains[c][i] == key
  }

  lemma {:induction false} ChainOfRung(chains: seq<seq<Jar>>, c: nat, key: Jar)
    requires c < |chains| && key in chains[c]
    requires forall d | 0 <= d < c :: key !in chains[d]
    ensures ChainOf(chains, key) == Some(chains[c])
    decreases |chains|
  {
    if c > 0 {
      assert key !in chains[0];
      ChainOfRung(chains[1..], c - 1, key);
    }
  }

  lemma {:induction false} PrefixOwnedAt(chain: seq<Jar>, owned: set<Jar>, i: nat)
    requires i < |chain| && Distinct(chain)
    ensures PrefixOwned(chain, owned, chain[i]) <==> forall j | 0 <= j < i :: chain[j] in owned
    decreases |chain|
  {
    if i > 0 {
      PrefixOwnedAt(chain[1..], owned, i - 1);
      assert chain[1..][i - 1] == chain[i] && chain[0] != chain[i];
      if forall j | 0 <= j < i :: chain[j] in owned {
        assert chain[0] in owned;
        assert forall j | 0 <= j < i - 1 :: chain[1..][j] == chain[j + 1];
      } else {
        var j :| 0 <= j < i && chain[j] !in owned;
        if j > 0 {
          assert chain[1..][j - 1] == chain[j];
        }
      }
    }
  }

  /** The fold's order check, by position: every lower rung is owned. */
  lemma InOrderAt(cat: Catalog, owned: set<Jar>, c: nat, i: nat, key: Jar)
    requires WellFormed(cat) && Rung(cat, c, i, key)
    ensures InOrder(cat, owned, key) <==> forall j | 0 <= j < i :: cat.chains[c][j] in owned
  {
    forall d | 0 <= d < c
      ensures key !in cat.chains[d]
    {
      assert key in cat.chains[c];
    }
    ChainOfRung(cat.chains, c, key);
    PrefixOwnedAt(cat.chains[c], owned, i);
  }

  /**
   In each ladder every owned rung, but for one carried over from an earlier
   bowl, has every lower rung owned; at most one rung is refused, with everything
   below it owned.
   */
  ghost predicate LadderedBut(cat: Catalog, t: Table, carried: Option<Jar>) {
    && (forall c, i, j | 0 <= c < |cat.chains| && 0 <= i < j < |cat.chains[c]| && cat.chains[c][j] in t.owned ::
          cat.chains[c][i] in t.owned || carried == Some(cat.chains[c][j]))
    && (forall c, i, j | 0 <= c < |cat.chains| && 0 <= i < j < |cat.chains[c]| && cat.chains[c][j] in t.declined ::
          cat.chains[c][i] in t.owned)
    && t.owned !! t.declined
  }

  /** In each ladder the owned rungs are a prefix. */
  ghost predicate Laddered(cat: Catalog, t: Table) {
    LadderedBut(cat, t, None)
  }

  lemma BuyKeepsLadder(cat: Catalog, t: Table, carried: Option<Jar>, key: Jar)
    requires WellFormed(cat) && LadderedBut(cat, t, carried)
    ensures LadderedBut(cat, ApplyBuy(cat, t, key).0, carried)
  {
    var u := ApplyBuy(cat, t, key).0;
    if ApplyBuy(cat, t, key).1 == Bought {
      forall c, i, j | 0 <= c < |cat.chains| && 0 <= i < j < |cat.chains[c]| && cat.chains[c][j] in u.owned
        ensures cat.chains[c][i] in u.owned || carried == Some(cat.chains[c][j])
      {
        if cat.chains[c][j] == key {
          InOrderAt(cat, t.owned, c, j, key);
        }
      }
    }
  }

  lemma BurnKeepsLadder(cat: Catalog, t: Table, carried: Option<Jar>, key: Jar)
    requires WellFormed(cat) && LadderedBut(cat, t, carried)
    ensures LadderedBut(cat, ApplyBurn(cat, t, key).0, carried)
  {
    var u := ApplyBurn(cat, t, key).0;
    if ApplyBurn(cat, t, key).1 == Burned {
      forall c, i, j | 0 <= c < |cat.chains| && 0 <= i < j < |cat.chains[c]| && cat.chains[c][j] in u.declined
        ensures cat.chains[c][i] in u.owned
      {
        if cat.chains[c][j] == key {
          InOrderAt(cat, t.owned, c, j, key);
        }
      }
    }
  }

  /** `key` is loose or the first rung of its ladder. */
  ghost predicate IsHead(cat: Catalog, key: Jar) {
    forall c, i | Rung(cat, c, i, key) :: i == 0
  }

  /** A tip leaves the ladders in order exactly when the jar it carries over is loose or a first rung. */
  lemma TipKeepsLadderIff(cat: Catalog, t: Table, keep: Option<Jar>, confirmed: bool, at: nat)
    requires WellFormed(cat) && ApplyTip(cat, t, keep, confirmed, at).1 == Tipped
    ensures Laddered(cat, ApplyTip(cat, t, keep, confirmed, at).0)
            <==> (Kept(cat, t, keep).Some? ==> IsHead(cat, Kept(cat, t, keep).value))
  {
    var u := ApplyTip(cat, t, keep, confirmed, at).0;
    var kept := Kept(cat, t, keep);
    assert u.declined == {} && u.owned == if kept.Some? then {kept.value} else {};
    if kept.Some? && !IsHead(cat, kept.value) {
      var c: nat, i: nat :| Rung(cat, c, i, kept.value) && i != 0;
      assert cat.chains[c][i] in u.owned && cat.chains[c][0] != kept.value;
    } else {
      forall c, j | 0 <= c < |cat.chains| && 0 < j < |cat.chains[c]|
        ensures cat.chains[c][j] !in u.owned
      {
        assert Rung(cat, c, j, cat.chains[c][j]);
      }
    }
  }

  lemma BrokeKeepsLadder(cat: Catalog, t: Table, carried: Option<Jar>, paid: nat, confirmed: bool, at: nat)
    requires LadderedBut(cat, t, carried)
    ensures LadderedBut(cat, ApplyBroke(t, paid, confirmed, at).0, carried)
  {
    var s := BrokeShape(t, paid, confirmed, at);
    if s.broken < DEEP_BAND_COUNT {
      BreakKeepsOrClears(s, confirmed, at);
    }
  }

  /** Breaking the last band starts a bowl with no jars. */
  lemma BreakKeepsOrClears(t: Table, confirmed: bool, at: nat)
    requires t.broken < DEEP_BAND_COUNT
    ensures var u := BreakBand(t, confirmed, at);
            (u.owned == t.owned && u.declined == t.declined) || (u.owned == {} && u.declined == {})
  {
  }

  lemma {:induction false} ChipsKeepJars(v: Verified, f: Fold, chips: seq<Chip>, confirmed: bool, at: nat)
    ensures var t := ApplyChips(v, f, chips, confirmed, at).table;
            t.owned == f.table.owned && t.declined == f.table.declined
    decreases |chips|
  {
    if chips != [] {
      ChipsKeepJars(v, ApplyChip(v, f, chips[0], confirmed, at), chips[1..], confirmed, at);
    }
  }

  /** The jar carried over once `r` is folded: what a tip keeps, and otherwise what was carried already. */
  ghost function CarriedPast(cat: Catalog, v: Verified, f: Fold, r: Reply, carried: Option<Jar>): Option<Jar> {
    if r.move.Tip? && FoldStep(cat, v, f, r).table.tips != f.table.tips then Kept(cat, Tick(f.table, r), r.move.keep) else carried
  }

  ghost function CarriedBy(cat: Catalog, v: Verified, f: Fold, rs: seq<Reply>, carried: Option<Jar>): Option<Jar>
    decreases |rs|
  {
    if rs == [] then carried
    else CarriedBy(cat, v, FoldStep(cat, v, f, rs[0]), rs[1..], CarriedPast(cat, v, f, rs[0], carried))
  }

  lemma TipKeepsLadder(cat: Catalog, v: Verified, f: Fold, r: Reply, carried: Option<Jar>)
    requires LadderedBut(cat, f.table, carried) && r.move.Tip?
    ensures LadderedBut(cat, FoldStep(cat, v, f, r).table, CarriedPast(cat, v, f, r, carried))
  {
    var t, u := Tick(f.table, r), FoldStep(cat, v, f, r).table;
    assert t.owned == f.table.owned && t.declined == f.table.declined && t.tips == f.table.tips;
    if u.tips != f.table.tips {
      var kept := Kept(cat, t, r.move.keep);
      assert u.declined == {} && u.owned == if kept.Some? then {kept.value} else {};
    } else {
      assert u.owned == t.owned && u.declined == t.declined;
    }
  }

  /** Banks, spends, dips and unreadable replies leave jars and refusals alone. */
  lemma OtherMovesKeepJars(cat: Catalog, v: Verified, f: Fold, r: Reply)
    requires !r.move.Tip? && !r.move.Broke? && !r.move.Buy? && !r.move.Burn?
    ensures var t := FoldStep(cat, v, f, r).table; t.owned == f.table.owned && t.declined == f.table.declined
  {
    if r.move.Bank? {
      var t := Tick(f.table, r);
      ChipsKeepJars(v, f.(table := t), r.move.chips, r.height.Some?, if r.height.Some? then r.createdAt else t.lastConfirmedAt);
    }
  }

  lemma JarMovesKeepLadder(cat: Catalog, v: Verified, f: Fold, r: Reply, carried: Option<Jar>)
    requires WellFormed(cat) && LadderedBut(cat, f.table, carried) && (r.move.Buy? || r.move.Burn?)
    ensures LadderedBut(cat, FoldStep(cat, v, f, r).table, carried)
  {
    if r.move.Buy? {
      BuyKeepsLadder(cat, Tick(f.table, r), carried, r.move.key);
    } else {
      BurnKeepsLadder(cat, Tick(f.table, r), carried, r.move.key);
    }
  }

  lemma BlowKeepsLadder(cat: Catalog, v: Verified, f: Fold, r: Reply, carried: Option<Jar>)
    requires LadderedBut(cat, f.table, carried) && r.move.Broke?
    ensures LadderedBut(cat, FoldStep(cat, v, f, r).table, carried)
  {
    var t := Tick(f.table, r);
    BrokeKeepsLadder(cat, t, carried, r.move.paid, r.height.Some?, if r.height.Some? then r.createdAt else t.lastConfirmedAt);
  }

  lemma StepKeepsLadder(cat: Catalog, v: Verified, f: Fold, r: Reply, carried: Option<Jar>)
    requires WellFormed(cat) && LadderedBut(cat, f.table, carried)
    ensures LadderedBut(cat, FoldStep(cat, v, f, r).table, CarriedPast(cat, v, f, r, carried))
  {
    if r.move.Tip? {
      TipKeepsLadder(cat, v, f, r, carried);
    } else if r.move.Broke? {
      BlowKeepsLadder(cat, v, f, r, carried);
    } else if r.move.Buy? || r.move.Burn? {
      JarMovesKeepLadder(cat, v, f, r, carried);
    } else {
      OtherMovesKeepJars(cat, v, f, r);
    }
  }

  /** Every fold keeps the ladders in order but for the jar its last tip carried over. */
  lemma {:induction false} FoldKeepsLadder(cat: Catalog, v: Verified, f: Fold, rs: seq<Reply>, carried: Option<Jar>)
    requires WellFormed(cat) && LadderedBut(cat, f.table, carried)
    ensures LadderedBut(cat, FoldAll(cat, v, f, rs).table, CarriedBy(cat, v, f, rs, carried))
    decreases |rs|
  {
    if rs != [] {
      StepKeepsLadder(cat, v, f, rs[0], carried);
      FoldKeepsLadder(cat, v, FoldStep(cat, v, f, rs[0]), rs[1..], CarriedPast(cat, v, f, rs[0], carried));
    }
  }

  /**
   Over every fold: an owned rung other than the one carried over has every lower
   rung owned, each ladder has at most one refused rung, and nothing at or above
   a refused rung is owned, unless carried over, or shown, or bought.
   */
  lemma LaddersHold(cat: Catalog, v: Verified, rs: seq<Reply>, available: Jar -> bool, c: nat, i: nat, j: nat)
    requires WellFormed(cat) && c < |cat.chains| && i <= j < |cat.chains[c]|
    ensures var t, carried := FoldAll(cat, v, START, rs).table, CarriedBy(cat, v, START, rs, None);
            var low, high := cat.chains[c][i], cat.chains[c][j];
            && (high in t.owned ==> low in t.owned || carried == Some(high))
            && (low in t.declined ==>
                  && (high in t.declined ==> i == j) && (high in t.owned ==> carried == Some(high))
                  && !OnShelf(cat, t.owned, t.declined, available, high)
                  && ApplyBuy(cat, t, high).0 == t)
  {
    FoldKeepsLadder(cat, v, START, rs, None);
    var t := FoldAll(cat, v, START, rs).table;
    var low, high := cat.chains[c][i], cat.chains[c][j];
    if low in t.declined {
      ShelfAgreesWithFold(cat, t, available, high);
      InOrderAt(cat, t.owned, c, j, high);
    }
  }

  // ------------------------------------------------------------------ a carried rung

  const TWO_RUNGS: Catalog :=
    Catalog(map["a" := Upgrade(1, None, None, None, false, None, None, 0), "b" := Upgrade(1, None, None, None, false, None, None, 0)],
            [["a", "b"]])

  function Said(cid: nat, move: Move): Reply {
    Reply(1, cid, Some(cid), 5, cid, move)
  }

  /** The part of a table the witness needs. */
  ghost predicate At(f: Fold, next: nat, crumbs: nat, broken: nat, grains: nat, abilities: set<string>, owned: set<Jar>) {
    && f.table.crumbs == crumbs && f.table.lifetimeChips == 2_000_000 && f.table.broken == broken && f.table.grains == grains
    && f.table.charOwned == abilities && f.table.owned == owned && f.table.declined == {} && f.table.lastConfirmedAt == 5
    && f.table.deepest == broken && (forall k <- f.seen :: k.ms < next)
  }

  lemma SameMoment(t: Table, r: Reply)
    requires r.height.Some? && r.createdAt == t.lastConfirmedAt
    ensures Tick(t, r) == t
  {
    assert SogHours(t.lastConfirmedAt, r.createdAt) == 0 && Soggy(t.crumbs, SogNum(t), 0) == t.crumbs;
  }

  lemma BigDip(v: Verified)
    ensures At(FoldStep(TWO_RUNGS, v, START, Said(1, Dip(2_000_000_000))), 2, 1_000_000, 0, 0, {}, {})
  {
    var t := Tick(START.table, Said(1, Dip(2_000_000_000)));
    assert t == FRESH.(lastConfirmedAt := 5);
    var u := ApplyDip(t, 2_000_000_000, true, 5);
    assert u.crumbs == 1_000_000 && u.lifetimeChips == 2_000_000;
  }

  lemma FirstBand(v: Verified, f: Fold)
    requires At(f, 2, 1_000_000, 0, 0, {}, {})
    ensures At(FoldStep(TWO_RUNGS, v, f, Said(2, Broke(0))), 3, 1_000_000, 1, 1, {}, {})
  {
    SameMoment(f.table, Said(2, Broke(0)));
    assert Pow2(1) == 2 && DeepBandFloor(0) == 2_000_000;
  }

  lemma TheCrack(v: Verified, f: Fold)
    requires At(f, 3, 1_000_000, 1, 1, {}, {})
    ensures At(FoldStep(TWO_RUNGS, v, f, Said(3, Spend("crack", 1))), 3, 1_000_000, 1, 0, {"crack"}, {})
  {
    SameMoment(f.table, Said(3, Spend("crack", 1)));
  }

  lemma BothRungs(v: Verified, f: Fold)
    requires At(f, 3, 1_000_000, 1, 0, {"crack"}, {})
    ensures At(FoldStep(TWO_RUNGS, v, FoldStep(TWO_RUNGS, v, f, Said(4, Buy("a"))), Said(5, Buy("b"))), 3, 999_998, 1, 0, {"crack"}, {"a", "b"})
  {
    SameMoment(f.table, Said(4, Buy("a")));
    var g := FoldStep(TWO_RUNGS, v, f, Said(4, Buy("a")));
    assert "a" in TWO_RUNGS.jars && TWO_RUNGS.jars["a"].cost == 1 && "b" in TWO_RUNGS.jars && TWO_RUNGS.jars["b"].cost == 1;
    assert ["a", "b"][0] == "a" && ["a", "b"][1] == "b" && TWO_RUNGS.chains[0] == ["a", "b"];
    assert ChainOf(TWO_RUNGS.chains, "a") == Some(["a", "b"]) && ChainOf(TWO_RUNGS.chains, "b") == Some(["a", "b"]);
    assert PrefixOwned(["a", "b"], {}, "a");
    assert At(g, 3, 999_999, 1, 0, {"crack"}, {"a"});
    SameMoment(g.table, Said(5, Buy("b")));
    assert ["a", "b"][1..] == ["b"] && PrefixOwned(["b"], {"a"}, "b") && PrefixOwned(["a", "b"], {"a"}, "b");
  }

  lemma TipKeepsB(v: Verified, f: Fold)
    requires At(f, 3, 999_998, 1, 0, {"crack"}, {"a", "b"})
    ensures FoldStep(TWO_RUNGS, v, f, Said(6, Tip(Some("b")))).table.owned == {"b"}
  {
    SameMoment(f.table, Said(6, Tip(Some("b"))));
    assert SeenTip(6) !in f.seen;
    assert SaltFor(2_000_000) > 0;
    assert Kept(TWO_RUNGS, f.table, Some("b")) == Some("b");
  }

  ghost function CarryRun(): seq<Reply> {
    [Said(1, Dip(2_000_000_000)), Said(2, Broke(0)), Said(3, Spend("crack", 1)), Said(4, Buy("a")), Said(5, Buy("b")), Said(6, Tip(Some("b")))]
  }

  /** From nothing: a dip, a band, the ability, two rungs and a tip that keeps the upper one. */
  lemma CarriedRungWitness(v: Verified)
    ensures WellFormed(TWO_RUNGS)
    ensures var t := FoldAll(TWO_RUNGS, v, START, CarryRun()).table; t.owned == {"b"} && !Laddered(TWO_RUNGS, t)
  {
    var rs := CarryRun();
    var f1 := FoldStep(TWO_RUNGS, v, START, rs[0]);
    var f2 := FoldStep(TWO_RUNGS, v, f1, rs[1]);
    var f3 := FoldStep(TWO_RUNGS, v, f2, rs[2]);
    var f4 := FoldStep(TWO_RUNGS, v, f3, rs[3]);
    var f5 := FoldStep(TWO_RUNGS, v, f4, rs[4]);
    var f6 := FoldStep(TWO_RUNGS, v, f5, rs[5]);
    BigDip(v);
    FirstBand(v, f1);
    TheCrack(v, f2);
    BothRungs(v, f3);
    TipKeepsB(v, f5);
    SixFolds(TWO_RUNGS, v, rs, f1, f2, f3, f4, f5, f6);
    var chain := TWO_RUNGS.chains[0];
    assert chain[0] == "a" && chain[1] == "b" && "a" !in f6.table.owned;
  }

  lemma SixFolds(cat: Catalog, v: Verified, rs: seq<Reply>, f1: Fold, f2: Fold, f3: Fold, f4: Fold, f5: Fold, f6: Fold)
    requires |rs| == 6 && f1 == FoldStep(cat, v, START, rs[0]) && f2 == FoldStep(cat, v, f1, rs[1]) && f3 == FoldStep(cat, v, f2, rs[2])
    requires f4 == FoldStep(cat, v, f3, rs[3]) && f5 == FoldStep(cat, v, f4, rs[4]) && f6 == FoldStep(cat, v, f5, rs[5])
    ensures FoldAll(cat, v, START, rs) == f6
  {
    var r1 := rs[1..];
    var r2 := r1[1..];
    var r3 := r2[1..];
    var r4 := r3[1..];
    var r5 := r4[1..];
    assert r1[0] == rs[1] && r2[0] == rs[2] && r3[0] == rs[3] && r4[0] == rs[4] && r5[0] == rs[5] && r5[1..] == [];
    assert FoldAll(cat, v, f6, []) == f6;
    assert FoldAll(cat, v, f5, r5) == f6;
    assert FoldAll(cat, v, f4, r4) == f6;
    assert FoldAll(cat, v, f3, r3) == f6;
    assert FoldAll(cat, v, f2, r2) == f6;
    assert FoldAll(cat, v, f1, r1) == f6;
  }
}

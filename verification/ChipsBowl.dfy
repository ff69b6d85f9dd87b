/**
 Crumbs against the size of the bowl (chips-client/src/lib/chipsEngine.ts,
 chipsConst.ts, sogProjection.ts): gains are cut off at the rim, but neither the
 hourly softening nor a smaller bowl is.
 */
module ChipsBowl {
  import opened Wrappers
  import opened ChipsEngine
  import opened ChipsCopies
  import opened BuyDesk

  predicate Within(t: Table) {
    t.crumbs <= t.bowlCap
  }

  // ------------------------------------------------------------------ when a fold stays within the bowl

  lemma {:induction false} SoggyGrows(crumbs: nat, num: nat, hours: nat)
    requires num > 100 && crumbs >= 100 && hours > 0
    ensures Soggy(crumbs, num, hours) > crumbs
    decreases hours
  {
    var next := Scale(crumbs, num, 100);
    assert crumbs * num >= crumbs * 101;
    if hours > 1 {
      SoggyGrows(next, num, hours - 1);
    }
  }

  /** An hour or more over a full bowl: nothing runs over if and only if the numerator is at most a hundred. */
  lemma FullBowlHoldsIff(t: Table, r: Reply)
    requires t.crumbs == t.bowlCap >= 100 && r.height.Some? && 0 < t.lastConfirmedAt && t.lastConfirmedAt + HOUR_MS <= r.createdAt
    ensures Within(Tick(t, r)) <==> SogNum(t) <= 100
  {
    var hours := SogHours(t.lastConfirmedAt, r.createdAt);
    assert hours > 0;
    if SogNum(t) <= 100 {
      SoggyShrinks(t.crumbs, SogNum(t), hours);
    } else {
      SoggyGrows(t.crumbs, SogNum(t), hours);
    }
  }

  /** A purchase stays within the bowl it leaves if and only if what is left over fits. */
  lemma BuyStaysWithinIff(cat: Catalog, t: Table, key: Jar)
    requires Within(t) && Buyable(cat, t, key)
    ensures Within(ApplyBuy(cat, t, key).0) <==>
            (cat.jars[key].bowlCap.Some? ==> t.crumbs - cat.jars[key].cost <= cat.jars[key].bowlCap.value)
  {
  }

  /** The reply neither ripens the crumbs nor buys a bowl too small for what is left. */
  ghost predicate Calm(cat: Catalog, f: Fold, r: Reply) {
    && (r.height.Some? ==> SogNum(f.table) <= 100)
    && (r.move.Buy? && Buyable(cat, Tick(f.table, r), r.move.key) && cat.jars[r.move.key].bowlCap.Some? ==>
          Tick(f.table, r).crumbs - cat.jars[r.move.key].cost <= cat.jars[r.move.key].bowlCap.value)
  }

  lemma TickStaysWithin(t: Table, r: Reply)
    requires Within(t) && (r.height.Some? ==> SogNum(t) <= 100)
    ensures Within(Tick(t, r))
  {
    if r.height.Some? && t.lastConfirmedAt > 0 {
      SoggyShrinks(t.crumbs, SogNum(t), SogHours(t.lastConfirmedAt, r.createdAt));
    }
  }

  lemma {:induction false} ChipsStayWithin(v: Verified, f: Fold, chips: seq<Chip>, confirmed: bool, at: nat)
    requires Within(f.table)
    ensures Within(ApplyChips(v, f, chips, confirmed, at).table)
    decreases |chips|
  {
    if chips != [] {
      ChipsStayWithin(v, ApplyChip(v, f, chips[0], confirmed, at), chips[1..], confirmed, at);
    }
  }

  lemma TipStaysWithin(cat: Catalog, t: Table, keep: Option<Jar>, confirmed: bool, at: nat)
    requires Within(t)
    ensures Within(ApplyTip(cat, t, keep, confirmed, at).0)
  {
  }

  lemma BlowStaysWithin(t: Table, paid: nat, confirmed: bool, at: nat)
    requires Within(t)
    ensures Within(ApplyBroke(t, paid, confirmed, at).0)
  {
    var s := BrokeShape(t, paid, confirmed, at);
  }

  lemma StepStaysWithin(cat: Catalog, v: Verified, f: Fold, r: Reply)
    requires Within(f.table) && Calm(cat, f, r)
    ensures Within(FoldStep(cat, v, f, r).table)
  {
    TickStaysWithin(f.table, r);
    var t := Tick(f.table, r);
    var confirmed, at := r.height.Some?, if r.height.Some? then r.createdAt else t.lastConfirmedAt;
    match r.move {
      case Bank(chips) => ChipsStayWithin(v, f.(table := t), chips, confirmed, at);
      case Tip(keep) => TipStaysWithin(cat, t, keep, confirmed, at);
      case Broke(paid) => BlowStaysWithin(t, paid, confirmed, at);
      case Buy(key) =>
        if Buyable(cat, t, key) {
          BuyStaysWithinIff(cat, t, key);
        }
      case Burn(_) =>
      case Spend(_, _) =>
      case Dip(_) =>
      case Oversize =>
      case Unparsed =>
    }
  }

  ghost predicate CalmRun(cat: Catalog, v: Verified, f: Fold, rs: seq<Reply>)
    decreases |rs|
  {
    rs == [] || (Calm(cat, f, rs[0]) && CalmRun(cat, v, FoldStep(cat, v, f, rs[0]), rs[1..]))
  }

  /** A fold that never ripens its crumbs nor shrinks its bowl below them is within its bowl throughout. */
  lemma {:induction false} CalmFoldStaysWithin(cat: Catalog, v: Verified, f: Fold, rs: seq<Reply>)
    requires Within(f.table) && CalmRun(cat, v, f, rs)
    ensures Within(FoldAll(cat, v, f, rs).table)
    decreases |rs|
  {
    if rs != [] {
      StepStaysWithin(cat, v, f, rs[0]);
      CalmFoldStaysWithin(cat, v, FoldStep(cat, v, f, rs[0]), rs[1..]);
    }
  }

  // ------------------------------------------------------------------ a bowl that runs over

  const BOWLS: seq<Jar> := ["bowl1", "bowl2", "bowl3"]
  const CELLARS: seq<Jar> := ["cellar", "cellar2"]

  const AIRTIGHT: Upgrade := Upgrade(30_000, None, None, None, true, None, None, 0)
  const BOWL_ONE: Upgrade := Upgrade(25_000, Some(3_000_000), None, None, false, None, None, 0)
  const BOWL_TWO: Upgrade := Upgrade(900_000, Some(200_000_000), None, None, false, None, None, 0)
  const BOWL_THREE: Upgrade := Upgrade(75_000_000, Some(5_000_000_000), None, None, false, None, None, 0)
  const CELLAR: Upgrade := Upgrade(2_000_000, None, None, None, false, None, None, 2)
  const CELLAR_TWO: Upgrade := Upgrade(250_000_000, None, None, None, false, None, None, 2)

  const SHELVES: Catalog :=
    Catalog(map["airtight" := AIRTIGHT,
                "bowl1" := BOWL_ONE,
                "bowl2" := BOWL_TWO,
                "bowl3" := BOWL_THREE,
                "cellar" := CELLAR,
                "cellar2" := CELLAR_TWO],
            [BOWLS, CELLARS])

  const STOCKING: seq<Move> :=
    [Dip(1_000_000), Buy("airtight"), Buy("bowl1"), Dip(3_000_000), Buy("cellar"), Buy("bowl2"),
     Dip(200_000_000), Buy("bowl3"), Dip(5_000_000_000), Buy("cellar2"), Dip(5_000_000_000)]

  /** Replies confirmed within one hour of each other. */
  function Posted(n: nat, move: Move): Reply {
    Reply(1, n, Some(n), 5, n, move)
  }

  ghost function StockRun(n: nat): seq<Reply>
    requires n <= |STOCKING|
  {
    if n == 0 then [] else StockRun(n - 1) + [Posted(n, STOCKING[n - 1])]
  }

  /** The table after `n` of the replies, as far as the witness needs it. */
  ghost predicate Stocked(f: Fold, n: nat, crumbs: nat, cap: nat, owned: set<Jar>, airtight: bool, sog: nat) {
    var t := f.table;
    && t.crumbs == crumbs && t.bowlCap == cap && t.owned == owned && t.airtight == airtight && t.sogBonus == sog
    && t.declined == {} && t.charOwned == {} && t.lastConfirmedAt == (if n == 0 then 0 else 5)
    && (n > 0 ==> t.lifetimeChips >= 1_000 && t.dipIndex != GUAC) && forall k <- f.seen :: k.SeenDip? && k.ms <= n
  }

  lemma PastGuac(lifetime: nat)
    requires lifetime >= 1_000
    ensures DipIndexFor(lifetime) != GUAC
  {
    assert DipIndexUpTo(lifetime, 3) == 2;
    assert DipIndexUpTo(lifetime, 5) != GUAC;
    assert DipIndexUpTo(lifetime, 7) != GUAC;
  }

  lemma PostedTicks(t: Table, r: Reply)
    requires r.height.Some? && r.createdAt == 5 && (t.lastConfirmedAt == 0 || t.lastConfirmedAt == 5)
    ensures Tick(t, r) == t.(lastConfirmedAt := 5)
  {
    assert SogHours(5, 5) == 0 && Soggy(t.crumbs, SogNum(t), 0) == t.crumbs;
  }

  lemma StockDip(v: Verified, f: Fold, n: nat, amount: nat, crumbs: nat, cap: nat, owned: set<Jar>, airtight: bool, sog: nat)
    requires Stocked(f, n, crumbs, cap, owned, airtight, sog) && amount >= 1_000_000
    ensures Stocked(FoldStep(SHELVES, v, f, Posted(n + 1, Dip(amount))), n + 1, Min(crumbs + amount, cap), cap, owned, airtight, sog)
  {
    var r := Posted(n + 1, Dip(amount));
    PostedTicks(f.table, r);
    assert SeenDip(amount, n + 1) !in f.seen;
    var t := f.table.(lastConfirmedAt := 5);
    PastGuac(ApplyDip(t, amount, true, 5).lifetimeChips);
  }

  lemma StockBuy(v: Verified, f: Fold, n: nat, key: Jar, crumbs: nat, cap: nat, owned: set<Jar>, airtight: bool, sog: nat)
    requires Stocked(f, n, crumbs, cap, owned, airtight, sog) && n > 0
    requires key in SHELVES.jars && key !in owned && InOrder(SHELVES, owned, key) && SHELVES.jars[key].cost <= crumbs
    ensures var u := SHELVES.jars[key];
            Stocked(FoldStep(SHELVES, v, f, Posted(n + 1, Buy(key))), n + 1, crumbs - u.cost,
                    if u.bowlCap.Some? then u.bowlCap.value else cap, owned + {key}, airtight || u.airtight, sog + u.sogBonus)
  {
    PostedTicks(f.table, Posted(n + 1, Buy(key)));
  }

  lemma StockStep(v: Verified, n: nat)
    requires n < |STOCKING|
    ensures FoldAll(SHELVES, v, START, StockRun(n + 1)) == FoldStep(SHELVES, v, FoldAll(SHELVES, v, START, StockRun(n)), Posted(n + 1, STOCKING[n]))
  {
    var f, r := FoldAll(SHELVES, v, START, StockRun(n)), Posted(n + 1, STOCKING[n]);
    FoldAppend(SHELVES, v, START, StockRun(n), [r]);
    assert [r][1..] == [] && FoldAll(SHELVES, v, FoldStep(SHELVES, v, f, r), []) == FoldStep(SHELVES, v, f, r);
  }

  lemma KeysDiffer()
    ensures "bowl1" != "bowl2" && "bowl1" != "bowl3" && "bowl2" != "bowl3" && "airtight" != "bowl1" && "cellar" != "bowl1"
  {
    assert "bowl1"[4] == '1' && "bowl2"[4] == '2' && "bowl3"[4] == '3';
    assert |"airtight"| == 8 && |"cellar"| == 6 && |"bowl1"| == 5;
  }

  lemma CellarIsNoBowl()
    ensures "cellar" !in BOWLS && "cellar2" !in BOWLS && "airtight" !in BOWLS && "airtight" !in CELLARS
  {
    assert |"airtight"| == 8 && |"cellar"| == 6 && |"cellar2"| == 7;
    assert forall i | 0 <= i < |BOWLS| :: |BOWLS[i]| == 5;
    assert forall i | 0 <= i < |CELLARS| :: |CELLARS[i]| < 8;
  }

  lemma AirtightFacts(owned: set<Jar>)
    ensures "airtight" in SHELVES.jars && SHELVES.jars["airtight"] == AIRTIGHT
    ensures InOrder(SHELVES, owned, "airtight")
  {
    CellarIsNoBowl();
    assert SHELVES.chains[1..] == [CELLARS] && [CELLARS][1..] == [];
    assert ChainOf([CELLARS], "airtight") == None;
  }

  lemma BowlFacts(owned: set<Jar>)
    ensures "bowl1" in SHELVES.jars && SHELVES.jars["bowl1"] == BOWL_ONE
    ensures "bowl2" in SHELVES.jars && SHELVES.jars["bowl2"] == BOWL_TWO
    ensures "bowl3" in SHELVES.jars && SHELVES.jars["bowl3"] == BOWL_THREE
    ensures InOrder(SHELVES, owned, "bowl1") && ("bowl1" in owned ==> InOrder(SHELVES, owned, "bowl2"))
    ensures "bowl1" in owned && "bowl2" in owned ==> InOrder(SHELVES, owned, "bowl3")
  {
    KeysDiffer();
    assert BOWLS[0] == "bowl1" && BOWLS[1] == "bowl2" && BOWLS[2] == "bowl3";
    assert BOWLS[1..] == ["bowl2", "bowl3"] && BOWLS[1..][1..] == ["bowl3"];
    assert forall k <- BOWLS :: ChainOf(SHELVES.chains, k) == Some(BOWLS);
  }

  lemma CellarFacts(owned: set<Jar>)
    ensures "cellar" in SHELVES.jars && SHELVES.jars["cellar"] == CELLAR
    ensures "cellar2" in SHELVES.jars && SHELVES.jars["cellar2"] == CELLAR_TWO
    ensures InOrder(SHELVES, owned, "cellar") && ("cellar" in owned ==> InOrder(SHELVES, owned, "cellar2"))
  {
    CellarIsNoBowl();
    assert CELLARS[0] == "cellar" && CELLARS[1] == "cellar2" && CELLARS[1..] == ["cellar2"];
    assert SHELVES.chains[1..] == [CELLARS];
    assert forall k <- CELLARS :: ChainOf(SHELVES.chains, k) == ChainOf([CELLARS], k) == Some(CELLARS);
  }

  /** What the first `n` replies leave. */
  ghost predicate StockedAt(v: Verified, n: nat, crumbs: nat, cap: nat, owned: set<Jar>, airtight: bool, sog: nat) {
    n <= |STOCKING| && Stocked(FoldAll(SHELVES, v, START, StockRun(n)), n, crumbs, cap, owned, airtight, sog)
  }

  lemma NextDip(v: Verified, n: nat, amount: nat, crumbs: nat, cap: nat, owned: set<Jar>, airtight: bool, sog: nat)
    requires StockedAt(v, n, crumbs, cap, owned, airtight, sog) && n < |STOCKING| && STOCKING[n] == Dip(amount) && amount >= 1_000_000
    ensures StockedAt(v, n + 1, Min(crumbs + amount, cap), cap, owned, airtight, sog)
  {
    StockStep(v, n);
    StockDip(v, FoldAll(SHELVES, v, START, StockRun(n)), n, amount, crumbs, cap, owned, airtight, sog);
  }

  lemma NextBuy(v: Verified, n: nat, key: Jar, u: Upgrade, crumbs: nat, cap: nat, owned: set<Jar>, airtight: bool, sog: nat)
    requires StockedAt(v, n, crumbs, cap, owned, airtight, sog) && 0 < n < |STOCKING| && STOCKING[n] == Buy(key)
    requires key in SHELVES.jars && SHELVES.jars[key] == u && key !in owned && InOrder(SHELVES, owned, key) && u.cost <= crumbs
    ensures StockedAt(v, n + 1, crumbs - u.cost, if u.bowlCap.Some? then u.bowlCap.value else cap, owned + {key},
                      airtight || u.airtight, sog + u.sogBonus)
  {
    StockStep(v, n);
    StockBuy(v, FoldAll(SHELVES, v, START, StockRun(n)), n, key, crumbs, cap, owned, airtight, sog);
  }

  lemma StockStart(v: Verified)
    ensures StockedAt(v, 1, 1_000_000, START_BOWL_CAP, {}, false, 0)
  {
    assert FoldAll(SHELVES, v, START, StockRun(0)) == START;
    NextDip(v, 0, 1_000_000, 0, START_BOWL_CAP, {}, false, 0);
  }

  const SEALED: set<Jar> := {} + {"airtight"}
  const ONE_BOWL: set<Jar> := SEALED + {"bowl1"}
  const ONE_SHELF: set<Jar> := ONE_BOWL + {"cellar"}
  const TWO_BOWLS: set<Jar> := ONE_SHELF + {"bowl2"}
  const THREE_BOWLS: set<Jar> := TWO_BOWLS + {"bowl3"}
  const TWO_SHELVES: set<Jar> := THREE_BOWLS + {"cellar2"}

  lemma NotYetOwned()
    ensures "bowl1" !in SEALED && "cellar" !in ONE_BOWL && "bowl2" !in ONE_SHELF && "bowl3" !in TWO_BOWLS && "cellar2" !in THREE_BOWLS
    ensures "bowl1" in ONE_SHELF && "bowl1" in TWO_BOWLS && "bowl2" in TWO_BOWLS && "cellar" in THREE_BOWLS
  {
    KeysDiffer();
    assert |"airtight"| == 8 && |"cellar"| == 6 && |"cellar2"| == 7 && |"bowl1"| == |"bowl2"| == |"bowl3"| == 5;
  }

  lemma SealTheBowl(v: Verified)
    ensures StockedAt(v, 2, 970_000, START_BOWL_CAP, SEALED, true, 0)
  {
    StockStart(v);
    NotYetOwned();
    AirtightFacts({});
    NextBuy(v, 1, "airtight", AIRTIGHT, 1_000_000, START_BOWL_CAP, {}, false, 0);
  }

  lemma BuyBowlOne(v: Verified)
    ensures StockedAt(v, 3, 945_000, 3_000_000, ONE_BOWL, true, 0)
  {
    SealTheBowl(v);
    NotYetOwned();
    BowlFacts(SEALED);
    NextBuy(v, 2, "bowl1", BOWL_ONE, 970_000, START_BOWL_CAP, SEALED, true, 0);
  }

  lemma FillBowlOne(v: Verified)
    ensures StockedAt(v, 4, 3_000_000, 3_000_000, ONE_BOWL, true, 0)
  {
    BuyBowlOne(v);
    NextDip(v, 3, 3_000_000, 945_000, 3_000_000, ONE_BOWL, true, 0);
  }

  lemma BuyCellar(v: Verified)
    ensures StockedAt(v, 5, 1_000_000, 3_000_000, ONE_SHELF, true, 2)
  {
    FillBowlOne(v);
    NotYetOwned();
    CellarFacts(ONE_BOWL);
    NextBuy(v, 4, "cellar", CELLAR, 3_000_000, 3_000_000, ONE_BOWL, true, 0);
  }

  lemma BuyBowlTwo(v: Verified)
    ensures StockedAt(v, 6, 100_000, 200_000_000, TWO_BOWLS, true, 2)
  {
    BuyCellar(v);
    NotYetOwned();
    BowlFacts(ONE_SHELF);
    NextBuy(v, 5, "bowl2", BOWL_TWO, 1_000_000, 3_000_000, ONE_SHELF, true, 2);
  }

  lemma FillBowlTwo(v: Verified)
    ensures StockedAt(v, 7, 200_000_000, 200_000_000, TWO_BOWLS, true, 2)
  {
    BuyBowlTwo(v);
    NextDip(v, 6, 200_000_000, 100_000, 200_000_000, TWO_BOWLS, true, 2);
  }

  lemma BuyBowlThree(v: Verified)
    ensures StockedAt(v, 8, 125_000_000, 5_000_000_000, THREE_BOWLS, true, 2)
  {
    FillBowlTwo(v);
    NotYetOwned();
    BowlFacts(TWO_BOWLS);
    NextBuy(v, 7, "bowl3", BOWL_THREE, 200_000_000, 200_000_000, TWO_BOWLS, true, 2);
  }

  lemma FillBowlThree(v: Verified)
    ensures StockedAt(v, 9, 5_000_000_000, 5_000_000_000, THREE_BOWLS, true, 2)
  {
    BuyBowlThree(v);
    NextDip(v, 8, 5_000_000_000, 125_000_000, 5_000_000_000, THREE_BOWLS, true, 2);
  }

  lemma BuyCellarTwo(v: Verified)
    ensures StockedAt(v, 10, 4_750_000_000, 5_000_000_000, TWO_SHELVES, true, 4)
  {
    FillBowlThree(v);
    NotYetOwned();
    CellarFacts(THREE_BOWLS);
    NextBuy(v, 9, "cellar2", CELLAR_TWO, 5_000_000_000, 5_000_000_000, THREE_BOWLS, true, 2);
  }

  lemma StockAll(v: Verified)
    ensures StockedAt(v, 11, 5_000_000_000, 5_000_000_000, TWO_SHELVES, true, 4)
  {
    BuyCellarTwo(v);
    NextDip(v, 10, 5_000_000_000, 4_750_000_000, 5_000_000_000, TWO_SHELVES, true, 4);
  }

  lemma AnHourAt103(crumbs: nat)
    requires crumbs == 5_000_000_000
    ensures Soggy(crumbs, 103, 1) == 5_150_000_000
  {
    assert Scale(crumbs, 103, 100) == 5_150_000_000;
    assert Soggy(5_150_000_000, 103, 0) == 5_150_000_000;
  }

  const HOUR_LATER: Reply := Reply(1, 12, Some(12), 5 + HOUR_MS, 12, Buy("airtight"))

  /**
   From nothing, with the prices of the catalogue: a full bowl, airtight, with
   both cellar shelves. An hour later the screen shows more than the fold has, and
   the next confirmed reply, whatever it is, leaves more than the bowl holds.
   */
  lemma FullBowlRunsOver(v: Verified)
    ensures var f := FoldAll(SHELVES, v, START, StockRun(11));
            && SogNum(f.table) == 103 && f.table.crumbs == f.table.bowlCap && Projected(f.table, 5 + HOUR_MS) > f.table.crumbs
            && !Within(FoldAll(SHELVES, v, START, StockRun(11) + [HOUR_LATER]).table)
  {
    StockAll(v);
    var f := FoldAll(SHELVES, v, START, StockRun(11));
    FoldAppend(SHELVES, v, START, StockRun(11), [HOUR_LATER]);
    var g := FoldStep(SHELVES, v, f, HOUR_LATER);
    assert [HOUR_LATER][1..] == [] && FoldAll(SHELVES, v, g, []) == g;
    RunsOver(v, f, TWO_SHELVES);
  }

  lemma RunsOver(v: Verified, f: Fold, owned: set<Jar>)
    requires Stocked(f, 11, 5_000_000_000, 5_000_000_000, owned, true, 4) && "airtight" in owned
    ensures SogNum(f.table) == 103 && f.table.crumbs == f.table.bowlCap && Projected(f.table, 5 + HOUR_MS) > f.table.crumbs
    ensures !Within(FoldStep(SHELVES, v, f, HOUR_LATER).table)
  {
    assert SogHours(5, 5 + HOUR_MS) == 1 && SogNum(f.table) == 103;
    AnHourAt103(f.table.crumbs);
    assert Tick(f.table, HOUR_LATER).crumbs == 5_150_000_000;
    AirtightFacts({});
  }
}

/**
 The gameplay-flow simulator's greedy buyer (chips-client/scripts/flowsim.ts):
 every five seconds the wallet grows and the cheapest permitted jar is bought
 until none is affordable.

 The simulator carries its own, shorter list of ladders. `sim` is the catalogue
 with those, `fold` the one the chain enforces.
 */
module FlowSim {
  import opened Wrappers
  import opened ChipsEngine
  import opened ChipsLadder
  import opened Shelf

  const STEP: nat := 5
  const HORIZON: nat := 1_440_000

  datatype Kitchen = Kitchen(crumbs: real, chips: real, owned: set<Jar>, bowlCap: nat, fryers: nat,
                             seasonNum: nat, seasonDen: nat, ddMod: nat)

  function DipIndexOf(chips: real): nat {
    DipIndexFrom(chips, |TIER_FLOORS|)
  }

  function DipIndexFrom(chips: real, n: nat): nat
    requires n <= |TIER_FLOORS|
  {
    if n == 0 then 0 else if chips >= TIER_FLOORS[n - 1] as real then n - 1 else DipIndexFrom(chips, n - 1)
  }

  /** The deepest tier whose floor these chips have reached. */
  lemma {:induction false} DipIndexIsTier(chips: real, n: nat)
    requires 0 < n <= |TIER_FLOORS| && (n < |TIER_FLOORS| ==> chips < TIER_FLOORS[n] as real) && chips >= 0.0
    ensures var i := DipIndexFrom(chips, n);
            && i < n && TIER_FLOORS[i] as real <= chips
            && (i + 1 < |TIER_FLOORS| ==> chips < TIER_FLOORS[i + 1] as real)
    decreases n
  {
    if n > 1 && chips < TIER_FLOORS[n - 1] as real {
      DipIndexIsTier(chips, n - 1);
    }
  }

  predicate Buyable(sim: Catalog, crew: Crew, k: Kitchen, key: Jar) {
    && key in sim.jars && key !in k.owned && Available(crew, DipIndexOf(k.chips), key)
    && InOrder(sim, k.owned, key) && sim.jars[key].cost <= k.bowlCap
  }

  /** On offer is a jar of the catalogue not yet owned, within reach, in order, and no dearer than the bowl holds. */
  lemma NothingDearerThanBowl(sim: Catalog, crew: Crew, k: Kitchen, key: Jar)
    requires Buyable(sim, crew, k, key)
    ensures key in sim.jars && sim.jars[key].cost <= k.bowlCap && key !in k.owned && key in crew && crew[key].layer <= DipIndexOf(k.chips)
  {
  }

  predicate Affordable(sim: Catalog, crew: Crew, k: Kitchen, key: Jar) {
    Buyable(sim, crew, k, key) && sim.jars[key].cost as real <= k.crumbs
  }

  function Pay(sim: Catalog, k: Kitchen, key: Jar): Kitchen
    requires key in sim.jars
  {
    var u := sim.jars[key];
    k.(crumbs := k.crumbs - u.cost as real, owned := k.owned + {key},
       fryers := if u.fryers.Some? && u.fryers.value > 0 then u.fryers.value else k.fryers,
       seasonNum := if u.seasoning.Some? && u.seasoning.value.0 > 0 && u.seasoning.value.1 > 0 then u.seasoning.value.0 else k.seasonNum,
       seasonDen := if u.seasoning.Some? && u.seasoning.value.0 > 0 && u.seasoning.value.1 > 0 then u.seasoning.value.1 else k.seasonDen,
       ddMod := if u.doubleDipMod.Some? && u.doubleDipMod.value > 0 then u.doubleDipMod.value else k.ddMod,
       bowlCap := if u.bowlCap.Some? && u.bowlCap.value > 0 then u.bowlCap.value else k.bowlCap)
  }

  /** `now` is what a jar that names `named` makes of `was`: nothing named, or nought, leaves it alone. */
  ghost predicate Sets(named: Option<nat>, was: nat, now: nat) {
    now == was || (named == Some(now) && now > 0)
  }

  /** A purchase takes the price and sets each figure the jar names, leaving the lifetime alone. */
  lemma PayFits(sim: Catalog, k: Kitchen, key: Jar)
    requires key in sim.jars
    ensures var u, p := sim.jars[key], Pay(sim, k, key);
            && p.crumbs + u.cost as real == k.crumbs && p.owned == k.owned + {key} && p.chips == k.chips
            && (forall n: nat | u.fryers == Some(n) && n > 0 :: p.fryers == n) && Sets(u.fryers, k.fryers, p.fryers)
            && (forall n: nat | u.doubleDipMod == Some(n) && n > 0 :: p.ddMod == n) && Sets(u.doubleDipMod, k.ddMod, p.ddMod)
            && (forall n: nat | u.bowlCap == Some(n) && n > 0 :: p.bowlCap == n) && Sets(u.bowlCap, k.bowlCap, p.bowlCap)
            && (if u.seasoning.Some? && u.seasoning.value.0 * u.seasoning.value.1 > 0
                then (p.seasonNum, p.seasonDen) == u.seasoning.value
                else p.seasonNum == k.seasonNum && p.seasonDen == k.seasonDen)
  {
  }

  /** The cheapest affordable jar, the earliest in catalogue order on ties. */
  method Cheapest(sim: Catalog, crew: Crew, order: seq<Jar>, k: Kitchen) returns (pick: Option<Jar>)
    requires forall key :: key in order <==> key in sim.jars
    ensures pick.None? <==> forall key :: !Affordable(sim, crew, k, key)
    ensures pick.Some? ==> Affordable(sim, crew, k, pick.value)
    ensures pick.Some? ==> forall key :: Affordable(sim, crew, k, key) ==> sim.jars[pick.value].cost <= sim.jars[key].cost
    ensures pick.Some? ==> exists i :: 0 <= i < |order| && order[i] == pick.value && forall j | 0 <= j < i && Affordable(sim, crew, k, order[j]) ::
                                         sim.jars[pick.value].cost < sim.jars[order[j]].cost
  {
    ghost var at: nat := 0;
    pick := None;
    for i := 0 to |order|
      invariant pick.None? ==> forall j | 0 <= j < i :: !Affordable(sim, crew, k, order[j])
      invariant pick.Some? ==> Affordable(sim, crew, k, pick.value)
      invariant pick.Some? ==> forall j | 0 <= j < i && Affordable(sim, crew, k, order[j]) ::
                                 sim.jars[pick.value].cost <= sim.jars[order[j]].cost
      invariant pick.Some? ==> at < i && order[at] == pick.value && forall j | 0 <= j < at && Affordable(sim, crew, k, order[j]) ::
                                                                      sim.jars[pick.value].cost < sim.jars[order[j]].cost
    {
      if Affordable(sim, crew, k, order[i]) && (pick.None? || sim.jars[order[i]].cost < sim.jars[pick.value].cost) {
        pick, at := Some(order[i]), i;
      }
    }
    forall key | Affordable(sim, crew, k, key)
      ensures pick.Some? && sim.jars[pick.value].cost <= sim.jars[key].cost
    {
      var j :| 0 <= j < |order| && order[j] == key;
    }
  }

  // ------------------------------------------------------------------ why cheapest-first keeps the fold's order

  /** Along each of the fold's ladders prices rise strictly and vendors sit no higher for a lower rung. */
  ghost predicate RisingLadders(fold: Catalog, crew: Crew) {
    forall c, i, j | 0 <= c < |fold.chains| && 0 <= i < j < |fold.chains[c]| ::
      var low, high := fold.chains[c][i], fold.chains[c][j];
      && low in fold.jars && high in fold.jars && fold.jars[low].cost < fold.jars[high].cost
      && (high in crew ==> low in crew && crew[low].layer <= crew[high].layer)
  }

  /** Each of the simulator's ladders is the beginning of one of the fold's. */
  ghost predicate Truncated(sim: Catalog, fold: Catalog) {
    && sim.jars == fold.jars
    && forall c | 0 <= c < |sim.chains| :: exists d :: 0 <= d < |fold.chains| && sim.chains[c] <= fold.chains[d]
  }

  lemma {:induction false} FirstMissing(chain: seq<Jar>, owned: set<Jar>, j: nat) returns (i: nat)
    requires j < |chain| && exists l :: 0 <= l < j && chain[l] !in owned
    ensures i < j && chain[i] !in owned && forall l | 0 <= l < i :: chain[l] in owned
  {
    i := 0;
    while chain[i] in owned
      invariant i < j && (forall l | 0 <= l < i :: chain[l] in owned)
      invariant exists l :: i <= l < j && chain[l] !in owned
      decreases j - i
    {
      i := i + 1;
    }
  }

  /** A rung whose lower rungs in the fold's ladder are all owned also passes the simulator's own check. */
  lemma SimAllows(sim: Catalog, fold: Catalog, owned: set<Jar>, c: nat, i: nat)
    requires WellFormed(sim) && WellFormed(fold) && Truncated(sim, fold)
    requires c < |fold.chains| && i < |fold.chains[c]| && forall l | 0 <= l < i :: fold.chains[c][l] in owned
    ensures InOrder(sim, owned, fold.chains[c][i])
  {
    var key := fold.chains[c][i];
    ChainOfHasKey(sim.chains, key);
    if ChainOf(sim.chains, key).Some? {
      var s :| 0 <= s < |sim.chains| && sim.chains[s] == ChainOf(sim.chains, key).value;
      var n :| 0 <= n < |sim.chains[s]| && sim.chains[s][n] == key;
      var d :| 0 <= d < |fold.chains| && sim.chains[s] <= fold.chains[d];
      assert fold.chains[d][n] == key;
      assert key in fold.chains[d] && key in fold.chains[c];
      assert d == c && n == i;
      InOrderAt(sim, owned, s, n, key);
    }
  }

  /** The cheapest affordable jar never skips a rung of the fold's ladder, whatever the simulator's ladders omit. */
  lemma CheapestIsInOrder(sim: Catalog, fold: Catalog, crew: Crew, k: Kitchen, key: Jar)
    requires WellFormed(sim) && WellFormed(fold) && Truncated(sim, fold) && RisingLadders(fold, crew)
    requires Affordable(sim, crew, k, key)
    requires forall x :: Affordable(sim, crew, k, x) ==> sim.jars[key].cost <= sim.jars[x].cost
    ensures InOrder(fold, k.owned, key)
  {
    ChainOfHasKey(fold.chains, key);
    if ChainOf(fold.chains, key).Some? {
      var c :| 0 <= c < |fold.chains| && fold.chains[c] == ChainOf(fold.chains, key).value;
      var j :| 0 <= j < |fold.chains[c]| && fold.chains[c][j] == key;
      InOrderAt(fold, k.owned, c, j, key);
      if exists l :: 0 <= l < j && fold.chains[c][l] !in k.owned {
        var i := FirstMissing(fold.chains[c], k.owned, j);
        SimAllows(sim, fold, k.owned, c, i);
        CheaperRungIsOpen(sim, fold, crew, k, c, i, j);
      }
    }
  }

  lemma CheaperRungIsOpen(sim: Catalog, fold: Catalog, crew: Crew, k: Kitchen, c: nat, i: nat, j: nat)
    requires Truncated(sim, fold) && RisingLadders(fold, crew)
    requires c < |fold.chains| && i < j < |fold.chains[c]|
    requires Affordable(sim, crew, k, fold.chains[c][j])
    requires fold.chains[c][i] !in k.owned && InOrder(sim, k.owned, fold.chains[c][i])
    ensures Affordable(sim, crew, k, fold.chains[c][i]) && sim.jars[fold.chains[c][i]].cost < sim.jars[fold.chains[c][j]].cost
  {
  }

  // ------------------------------------------------------------------ the loops

  /** `bought` lists jars once each, every one bought with all its lower rungs already owned. */
  ghost predicate BoughtInOrder(fold: Catalog, start: set<Jar>, bought: seq<Jar>) {
    forall i | 0 <= i < |bought| ::
      && bought[i] in fold.jars && bought[i] !in start && bought[i] !in bought[..i]
      && InOrder(fold, start + Among(bought[..i]), bought[i])
  }

  ghost function Among(bought: seq<Jar>): set<Jar> {
    set b | b in bought
  }

  /** What the purchases so far have cost. */
  ghost function Spent(sim: Catalog, bought: seq<Jar>): nat {
    if bought == [] then 0
    else
      var n := |bought| - 1;
      Spent(sim, bought[..n]) + (if bought[n] in sim.jars then sim.jars[bought[n]].cost else 0)
  }

  lemma SpentOneMore(sim: Catalog, bought: seq<Jar>, key: Jar)
    requires key in sim.jars
    ensures Spent(sim, bought + [key]) == Spent(sim, bought) + sim.jars[key].cost
  {
    assert (bought + [key])[..|bought|] == bought;
  }

  lemma BoughtOneMore(fold: Catalog, start: set<Jar>, bought: seq<Jar>, key: Jar)
    requires BoughtInOrder(fold, start, bought) && key in fold.jars && key !in start && key !in bought
    requires InOrder(fold, start + Among(bought), key)
    ensures BoughtInOrder(fold, start, bought + [key])
    ensures Among(bought + [key]) == Among(bought) + {key}
  {
    var next := bought + [key];
    forall i | 0 <= i < |next|
      ensures next[i] in fold.jars && next[i] !in start && next[i] !in next[..i] && InOrder(fold, start + Among(next[..i]), next[i])
    {
      if i < |bought| {
        assert next[..i] == bought[..i];
      } else {
        assert next[..i] == bought;
      }
    }
  }

  /** One step's purchases: never overdrawn, in the fold's order, and nothing permitted and affordable is left. */
  method BuyAll(sim: Catalog, fold: Catalog, crew: Crew, order: seq<Jar>, k0: Kitchen, before: seq<Jar>)
    returns (k: Kitchen, bought: seq<Jar>)
    requires WellFormed(sim) && WellFormed(fold) && Truncated(sim, fold) && RisingLadders(fold, crew)
    requires forall key :: key in order <==> key in sim.jars
    requires k0.crumbs >= 0.0 && k0.owned == Among(before) && BoughtInOrder(fold, {}, before)
    ensures before <= bought && k.owned == Among(bought) && BoughtInOrder(fold, {}, bought)
    ensures 0.0 <= k.crumbs <= k0.crumbs && k.chips == k0.chips
    ensures k.crumbs + Spent(sim, bought) as real == k0.crumbs + Spent(sim, before) as real
    ensures Booked(sim, fold, k0, before) ==> Booked(sim, fold, k, bought)
    ensures forall key :: !Affordable(sim, crew, k, key)
  {
    k, bought := k0, before;
    while true
      invariant before <= bought && k.owned == Among(bought) && BoughtInOrder(fold, {}, bought)
      invariant 0.0 <= k.crumbs <= k0.crumbs && k.chips == k0.chips
      invariant k.crumbs + Spent(sim, bought) as real == k0.crumbs + Spent(sim, before) as real
      decreases sim.jars.Keys - k.owned
    {
      var pick := Cheapest(sim, crew, order, k);
      if pick.None? {
        return;
      }
      var key := pick.value;
      CheapestIsInOrder(sim, fold, crew, k, key);
      assert {} + Among(bought) == k.owned;
      BoughtOneMore(fold, {}, bought, key);
      SpentOneMore(sim, bought, key);
      bought := bought + [key];
      k := Pay(sim, k, key);
    }
  }

  function Rate(k: Kitchen): real {
    var season := if k.seasonDen == 0 then 0.0 else (k.seasonNum as real) / (k.seasonDen as real);
    var dd := if k.ddMod == 0 then 1.0 else 1.0 + 1.0 / ((k.ddMod * 10) as real);
    100.0 * season * (k.fryers as real) * dd
  }

  /** A hundred crumbs a second for each fryer, times the seasoning, and one part in ten times the double-dip modulus more. */
  lemma RateIs(k: Kitchen)
    requires k.seasonDen > 0
    ensures var den, part := k.seasonDen as real, (if k.ddMod == 0 then 0.0 else 1.0 / (10 * k.ddMod) as real);
            Rate(k) * den == 100.0 * k.seasonNum as real * k.fryers as real * (1.0 + part)
  {
    var den, num, part := k.seasonDen as real, k.seasonNum as real, (if k.ddMod == 0 then 0.0 else 1.0 / (10 * k.ddMod) as real);
    RateOf(num, den, k.fryers as real, 1.0 + part);
  }

  lemma RateOf(num: real, den: real, fryers: real, dd: real)
    requires den > 0.0
    ensures 100.0 * (num / den) * fryers * dd * den == 100.0 * num * fryers * dd
  {
    var season := num / den;
    assert season * den == num;
    assert 100.0 * season * fryers * dd * den == 100.0 * (season * den) * fryers * dd;
  }

  lemma RateIsNonNegative(k: Kitchen)
    ensures Rate(k) >= 0.0
  {
    var season := if k.seasonDen == 0 then 0.0 else (k.seasonNum as real) / (k.seasonDen as real);
    var dd := if k.ddMod == 0 then 1.0 else 1.0 + 1.0 / ((k.ddMod * 10) as real);
    assert season >= 0.0 && dd >= 0.0;
    Products(100.0 * season, k.fryers as real);
    Products(100.0 * season * (k.fryers as real), dd);
  }

  lemma Products(a: real, b: real)
    requires a >= 0.0 && b >= 0.0
    ensures a * b >= 0.0
  {
  }

  /** Five seconds of frying: the wallet grows up to the bowl, the lifetime grows regardless. */
  function Earn(k: Kitchen): Kitchen {
    var grown := k.crumbs + Rate(k) * 5.0;
    k.(crumbs := if grown < k.bowlCap as real then grown else k.bowlCap as real, chips := k.chips + Rate(k) * 5.0 / 1000.0)
  }

  /** The purchases are the shelf's, in the fold's order, and what is held and spent is within what was earned. */
  ghost predicate Booked(sim: Catalog, fold: Catalog, k: Kitchen, bought: seq<Jar>) {
    && k.owned == Among(bought) && BoughtInOrder(fold, {}, bought) && k.crumbs >= 0.0
    && k.crumbs + Spent(sim, bought) as real <= 1000.0 * k.chips
  }

  /** The lifetime grows by a chip per thousand crumbs of five seconds' rate; the wallet by the crumbs that still fit. */
  lemma EarnIs(k: Kitchen)
    ensures var e, gain := Earn(k), 5.0 * Rate(k);
            && 1000.0 * (e.chips - k.chips) == gain
            && (if k.crumbs + gain <= k.bowlCap as real then e.crumbs == k.crumbs + gain else e.crumbs == k.bowlCap as real)
            && e == k.(crumbs := e.crumbs, chips := e.chips)
  {
  }

  lemma EarningIsBooked(sim: Catalog, fold: Catalog, k: Kitchen, bought: seq<Jar>)
    requires Booked(sim, fold, k, bought)
    ensures Booked(sim, fold, Earn(k), bought)
  {
    RateIsNonNegative(k);
  }

  ghost predicate OnBeat(sec: nat) {
    sec <= HORIZON && sec % STEP == 0
  }

  lemma NextBeat(sec: nat)
    requires OnBeat(sec) && sec < HORIZON
    ensures OnBeat(sec + STEP)
  {
  }

  lemma {:induction false} DipIndexBound(chips: real, n: nat)
    requires n <= |TIER_FLOORS|
    ensures n > 0 ==> DipIndexFrom(chips, n) < n
  {
    if n > 1 {
      DipIndexBound(chips, n - 1);
    }
  }

  lemma OwnedFits(sim: Catalog, fold: Catalog, bought: seq<Jar>)
    requires Truncated(sim, fold) && BoughtInOrder(fold, {}, bought)
    ensures |Among(bought)| <= |sim.jars|
  {
    assert Among(bought) <= sim.jars.Keys;
    var rest := sim.jars.Keys - Among(bought);
    assert sim.jars.Keys == Among(bought) + rest;
  }

  /**
   The whole run buys each jar at most once and only in the fold's order, never
   overdraws, and ends with nothing affordable left; what it holds and has spent is
   no more than it has earned. It always runs to its horizon: the early exit waits
   for an event the first tier never produces.
   */
  method Simulate(sim: Catalog, fold: Catalog, crew: Crew, order: seq<Jar>) returns (bought: seq<Jar>, k: Kitchen, sec: nat)
    requires WellFormed(sim) && WellFormed(fold) && Truncated(sim, fold) && RisingLadders(fold, crew)
    requires forall key :: key in order <==> key in sim.jars
    ensures k.owned == Among(bought) && BoughtInOrder(fold, {}, bought)
    ensures k.crumbs >= 0.0 && sec == HORIZON
    ensures k.crumbs + Spent(sim, bought) as real <= 1000.0 * k.chips
    ensures forall key :: !Affordable(sim, crew, k, key)
  {
    k := Kitchen(0.0, 0.0, {}, START_BOWL_CAP, 1, 1, 1, 0);
    bought, sec := [], 0;
    OwnedFits(sim, fold, bought);
    while sec < HORIZON && |k.owned| + DipIndexOf(k.chips) < |sim.jars| + |TIER_FLOORS|
      invariant Booked(sim, fold, k, bought) && |k.owned| <= |sim.jars| && OnBeat(sec)
      invariant sec > 0 ==> forall key :: !Affordable(sim, crew, k, key)
      decreases HORIZON - sec
    {
      EarningIsBooked(sim, fold, k, bought);
      k := Earn(k);
      NextBeat(sec);
      sec := sec + STEP;
      k, bought := BuyAll(sim, fold, crew, order, k, bought);
      OwnedFits(sim, fold, bought);
    }
    DipIndexBound(k.chips, |TIER_FLOORS|);
  }
}

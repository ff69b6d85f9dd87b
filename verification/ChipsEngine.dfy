/**
 The deterministic fold of a chips table (chips-client/src/lib/chipsEngine.ts):
 a table's state is a function of the owner's replies in chain order.

 Replies arrive parsed. The catalogue of jars is a parameter; the other numbers
 are the ones of chips-client/src/lib/chipsConst.ts. Amounts are unbounded
 integers and the square root of the salt rule is the exact one.
 */
module ChipsEngine {
  import opened Wrappers

  type Jar = string

  // ------------------------------------------------------------------ constants

  const CRUMBS_PER_CHIP: nat := 1000
  const BANK_MIN_BITS: nat := 8
  const GOLDEN_BITS: nat := 16
  const SOG_BASE_NUM: nat := 97
  const AIRTIGHT_BONUS: nat := 2
  const SOG_MAX_HOURS: nat := 720
  const HOUR_MS: nat := 3_600_000
  const CONGEAL_GAP_MS: nat := 43_200_000
  const START_BOWL_CAP: nat := 1_000_000
  const TIP_FLOOR: nat := 4_000
  const DEEP_BAND_COUNT: nat := 6
  const FIRST_HP_BAND: nat := 1
  const CHAR_PER_BAND: seq<nat> := [1, 2, 3, 5, 8, 13]
  const BOSS_HP_MULT: seq<nat> := [0, 3, 6, 10, 16, 24]
  const TIER_FLOORS: seq<nat> := [0, 150, 1_000, 4_000, 40_000, 120_000, 350_000, 1_000_000]
  const GUAC: nat := 1
  const QUESO: nat := 3

  datatype Upgrade = Upgrade(cost: nat, bowlCap: Option<nat>, seasoning: Option<(nat, nat)>, fryers: Option<nat>,
                             airtight: bool, goldenBits: Option<nat>, doubleDipMod: Option<nat>, sogBonus: nat)

  datatype Catalog = Catalog(jars: map<Jar, Upgrade>, chains: seq<seq<Jar>>)

  // ------------------------------------------------------------------ moves and state

  datatype Chip = Chip(ms: nat, bits: nat, nonce: nat)

  datatype Move =
    | Bank(chips: seq<Chip>)
    | Oversize
    | Buy(key: Jar)
    | Burn(key: Jar)
    | Tip(keep: Option<Jar>)
    | Broke(paid: nat)
    | Spend(ability: string, cost: nat)
    | Dip(amount: nat)
    | Unparsed

  /** `height` is None while the reply is pending; `ms` is the authoring time in its body. */
  datatype Reply = Reply(author: nat, cid: nat, height: Option<nat>, createdAt: nat, ms: nat, move: Move)

  datatype Outcome =
    | Banked | RejectedBits | RejectedDuplicate | RejectedUnverified | RejectedOversize | Dipped | Tipped
    | RejectedShallow | BrokeBand | Spent | Chipped | RejectedChar | Bought | RejectedCost | RejectedOwned
    | RejectedOrder | RejectedParse | Burned | RejectedUnowned

  datatype Table = Table(
    crumbs: nat, lifetimeChips: nat, oldSalt: nat, tips: nat, broken: nat, declined: set<Jar>, deepest: nat,
    grains: nat, paidToBosses: nat, bossDamage: nat, bossHpFrozen: nat, charOwned: set<string>, bowls: nat,
    crispest: nat, owned: set<Jar>, bowlCap: nat, seasoningNum: nat, seasoningDen: nat, fryers: nat,
    goldenBits: nat, airtight: bool, sogBonus: nat, doubleDipMod: nat, dipIndex: nat, lastConfirmedAt: nat,
    lastBankAt: nat)

  /** What identifies an accumulating move: verb, amount and authoring time. */
  datatype Seen = SeenTip(ms: nat) | SeenBroke(paid: nat, ms: nat) | SeenDip(amount: nat, ms: nat)

  /** The fold's running state: the table, the proofs and moves already applied, and the outcome of each move. */
  datatype Fold = Fold(table: Table, proofs: set<(nat, nat)>, seen: set<Seen>, moves: seq<Outcome>)

  type Verified = map<(nat, nat), nat>

  const FRESH: Table := Table(0, 0, 0, 0, 0, {}, 0, 0, 0, 0, 0, {}, 0, 0, {}, START_BOWL_CAP, 1, 1, 1, GOLDEN_BITS,
                              false, 0, 0, 0, 0, 0)
  const START: Fold := Fold(FRESH, {}, {}, [])

  // ------------------------------------------------------------------ arithmetic

  function Isqrt(n: nat): (r: nat)
    ensures r * r <= n < (r + 1) * (r + 1)
  {
    if n == 0 then 0
    else
      var r := Isqrt(n - 1);
      if (r + 1) * (r + 1) <= n then r + 1 else r
  }

  /** floor(10 * sqrt(lifetime / TIP_FLOOR)), nothing below the floor. */
  function SaltFor(lifetime: nat): nat {
    if lifetime < TIP_FLOOR then 0 else Isqrt(lifetime / 40)
  }

  function DipIndexFor(lifetime: nat): nat {
    DipIndexUpTo(lifetime, |TIER_FLOORS|)
  }

  function DipIndexUpTo(lifetime: nat, n: nat): nat
    requires n <= |TIER_FLOORS|
  {
    if n == 0 then 0 else if lifetime >= TIER_FLOORS[n - 1] then n - 1 else DipIndexUpTo(lifetime, n - 1)
  }

  function DeepBandFloor(i: nat): nat {
    1_000_000 * Pow2(i + 1)
  }

  function BossHp(band: nat): nat {
    var b := Min(band, |BOSS_HP_MULT| - 1);
    Max(1, DeepBandFloor(b) * CRUMBS_PER_CHIP * BOSS_HP_MULT[b])
  }

  function SogNum(t: Table): nat {
    (if t.dipIndex == GUAC then 96 else SOG_BASE_NUM) + (if t.airtight then AIRTIGHT_BONUS else 0) + t.sogBonus
  }

  function SogHours(fromAt: nat, toAt: nat): nat {
    if toAt <= fromAt then 0 else Min((toAt - fromAt) / HOUR_MS, SOG_MAX_HOURS)
  }

  /** floor(a * num / den). */
  function Scale(a: nat, num: nat, den: nat): nat
    requires den > 0
  {
    assert a * num >= 0;
    a * num / den
  }

  function Soggy(crumbs: nat, num: nat, hours: nat): nat
    decreases hours
  {
    if hours == 0 || crumbs == 0 then crumbs else Soggy(Scale(crumbs, num, 100), num, hours - 1)
  }

  function Payout(t: Table, bits: nat, at: nat): nat
    requires bits >= BANK_MIN_BITS
  {
    var base := CRUMBS_PER_CHIP * Pow2(bits - BANK_MIN_BITS);
    var golden := if bits >= t.goldenBits then Scale(base, 5, 2) else base;
    var dipped := if t.dipIndex == GUAC then Scale(golden, 11, 10) else golden;
    var congealed := if t.dipIndex == QUESO && t.lastBankAt > 0 && at >= t.lastBankAt + CONGEAL_GAP_MS
                     then dipped * 2 else dipped;
    if t.seasoningDen == 0 then 0 else Scale(congealed, t.seasoningNum, t.seasoningDen)
  }

  // ------------------------------------------------------------------ jars

  /** The first chain that lists `key`, if any. */
  function ChainOf(chains: seq<seq<Jar>>, key: Jar): Option<seq<Jar>> {
    if chains == [] then None else if key in chains[0] then Some(chains[0]) else ChainOf(chains[1..], key)
  }

  /** Whether every rung listed before `key` is owned. */
  predicate PrefixOwned(chain: seq<Jar>, owned: set<Jar>, key: Jar) {
    chain == [] || chain[0] == key || (chain[0] in owned && PrefixOwned(chain[1..], owned, key))
  }

  predicate InOrder(cat: Catalog, owned: set<Jar>, key: Jar) {
    match ChainOf(cat.chains, key)
    case None => true
    case Some(chain) => PrefixOwned(chain, owned, key)
  }

  function ApplyEffects(t: Table, key: Jar, u: Upgrade): Table {
    t.(owned := t.owned + {key},
       bowlCap := if u.bowlCap.Some? then u.bowlCap.value else t.bowlCap,
       seasoningNum := if u.seasoning.Some? then u.seasoning.value.0 else t.seasoningNum,
       seasoningDen := if u.seasoning.Some? then u.seasoning.value.1 else t.seasoningDen,
       fryers := if u.fryers.Some? then u.fryers.value else t.fryers,
       goldenBits := if u.goldenBits.Some? then u.goldenBits.value else t.goldenBits,
       airtight := t.airtight || u.airtight,
       sogBonus := t.sogBonus + u.sogBonus,
       doubleDipMod := if u.doubleDipMod.Some? then u.doubleDipMod.value else t.doubleDipMod)
  }

  function ApplyBuy(cat: Catalog, t: Table, key: Jar): (Table, Outcome) {
    if key !in cat.jars then (t, RejectedParse)
    else if key in t.owned then (t, RejectedOwned)
    else if key in t.declined then (t, RejectedOwned)
    else if !InOrder(cat, t.owned, key) then (t, RejectedOrder)
    else if t.crumbs < cat.jars[key].cost then (t, RejectedCost)
    else (ApplyEffects(t.(crumbs := t.crumbs - cat.jars[key].cost), key, cat.jars[key]), Bought)
  }

  function ApplyBurn(cat: Catalog, t: Table, key: Jar): (Table, Outcome) {
    if key !in cat.jars || key in t.owned || key in t.declined then (t, RejectedUnowned)
    else if !InOrder(cat, t.owned, key) then (t, RejectedOrder)
    else (t.(declined := t.declined + {key}, crumbs := Min(t.bowlCap, t.crumbs + Scale(cat.jars[key].cost, 70, 100))), Burned)
  }

  /** What a new bowl starts with: everything the run built is gone, prestige stays. */
  function NewBowl(t: Table): Table {
    FRESH.(oldSalt := t.oldSalt, tips := t.tips, deepest := t.deepest, grains := t.grains, bowls := t.bowls,
           paidToBosses := t.paidToBosses, charOwned := t.charOwned, lastConfirmedAt := t.lastConfirmedAt,
           lastBankAt := t.lastBankAt)
  }

  /** The jar THE CRACK carries through a tip, when the player has that ability and owns the jar. */
  function Kept(cat: Catalog, t: Table, keep: Option<Jar>): Option<Jar> {
    if keep.Some? && "crack" in t.charOwned && keep.value in t.owned && keep.value in cat.jars then keep else None
  }

  function ApplyTip(cat: Catalog, t: Table, keep: Option<Jar>, confirmed: bool, at: nat): (Table, Outcome) {
    var earned := SaltFor(t.lifetimeChips);
    if earned == 0 then (t, RejectedShallow)
    else
      var emptied := NewBowl(t.(oldSalt := t.oldSalt + earned, tips := t.tips + 1));
      var kept := Kept(cat, t, keep);
      var bowl := if kept.Some? then ApplyEffects(emptied, kept.value, cat.jars[kept.value]) else emptied;
      (if confirmed then bowl.(lastBankAt := at) else bowl, Tipped)
  }

  function ApplySpend(t: Table, ability: string, cost: nat): (Table, Outcome) {
    if ability in t.charOwned || t.grains < cost then (t, RejectedChar)
    else (t.(grains := t.grains - cost, charOwned := t.charOwned + {ability}), Spent)
  }

  /** The band gives: char on a new personal best, and the last band is a new bowl. */
  function BreakBand(t: Table, confirmed: bool, at: nat): Table
    requires t.broken < DEEP_BAND_COUNT
  {
    var up := t.(broken := t.broken + 1);
    var paid := if up.broken > up.deepest then up.(deepest := up.broken, grains := up.grains + CHAR_PER_BAND[t.broken]) else up;
    if paid.broken < DEEP_BAND_COUNT then paid
    else
      var bowl := NewBowl(paid.(oldSalt := paid.oldSalt + SaltFor(paid.lifetimeChips), bowls := paid.bowls + 1,
                                tips := paid.tips + 1));
      var kept := bowl.(bossDamage := paid.bossDamage, bossHpFrozen := paid.bossHpFrozen);
      if confirmed then kept.(lastBankAt := at) else kept
  }

  function ApplyBroke(t: Table, paid: nat, confirmed: bool, at: nat): (Table, Outcome) {
    if t.broken >= DEEP_BAND_COUNT then (t, RejectedOrder)
    else if t.lifetimeChips < DeepBandFloor(t.broken) then (t, RejectedShallow)
    else
      var fed := t.(paidToBosses := t.paidToBosses + paid);
      if t.broken < FIRST_HP_BAND then (BreakBand(fed, confirmed, at), BrokeBand)
      else
        BossBlow(fed, if fed.bossHpFrozen == 0 then BossHp(t.broken) else fed.bossHpFrozen, paid, confirmed, at)
  }

  /** A blow against a band with `hp` to wear down. */
  function BossBlow(t: Table, hp: nat, paid: nat, confirmed: bool, at: nat): (Table, Outcome)
    requires t.broken < DEEP_BAND_COUNT
  {
    if t.bossDamage + paid < hp
    then (t.(bossHpFrozen := hp, bossDamage := t.bossDamage + paid), Chipped)
    else (BreakBand(t.(bossHpFrozen := 0, bossDamage := 0), confirmed, at), BrokeBand)
  }

  /** Only the fight with the current band differs. */
  ghost predicate SameButFight(t: Table, u: Table) {
    u == t.(paidToBosses := u.paidToBosses, bossHpFrozen := u.bossHpFrozen, bossDamage := u.bossDamage)
  }

  /** A blow either leaves everything but the fight alone or breaks the current band. */
  lemma BrokeShape(t: Table, paid: nat, confirmed: bool, at: nat) returns (s: Table)
    ensures SameButFight(t, s)
    ensures var u := ApplyBroke(t, paid, confirmed, at).0;
            SameButFight(t, u) || (s.broken < DEEP_BAND_COUNT && u == BreakBand(s, confirmed, at))
  {
    var fed := t.(paidToBosses := t.paidToBosses + paid);
    if t.broken < FIRST_HP_BAND {
      s := fed;
    } else {
      s := fed.(bossHpFrozen := 0, bossDamage := 0);
      if t.broken < DEEP_BAND_COUNT && t.lifetimeChips >= DeepBandFloor(t.broken) {
        var hp := if fed.bossHpFrozen == 0 then BossHp(t.broken) else fed.bossHpFrozen;
        assert ApplyBroke(t, paid, confirmed, at) == BossBlow(fed, hp, paid, confirmed, at);
      }
    }
  }

  function ApplyDip(t: Table, amount: nat, confirmed: bool, at: nat): Table {
    var up := t.(crumbs := Min(t.crumbs + amount, t.bowlCap),
                 lifetimeChips := t.lifetimeChips + Max(1, (2 * amount + CRUMBS_PER_CHIP) / (2 * CRUMBS_PER_CHIP)));
    var dipped := up.(dipIndex := DipIndexFor(up.lifetimeChips));
    if confirmed then dipped.(lastBankAt := at) else dipped
  }

  /** One chip of a bank reply. */
  function ApplyChip(v: Verified, f: Fold, chip: Chip, confirmed: bool, at: nat): Fold {
    var key := (chip.ms, chip.nonce);
    if key !in v then f.(moves := f.moves + [RejectedUnverified])
    else if chip.bits < BANK_MIN_BITS || v[key] < chip.bits then f.(moves := f.moves + [RejectedBits])
    else if key in f.proofs then f.(moves := f.moves + [RejectedDuplicate])
    else
      var t := f.table;
      var doubled := t.doubleDipMod > 0 && chip.nonce % t.doubleDipMod == 0;
      var crumbs := Payout(t, chip.bits, at) * (if doubled then 2 else 1);
      var up := t.(crumbs := Min(t.crumbs + crumbs, t.bowlCap),
                   lifetimeChips := t.lifetimeChips + Pow2(chip.bits - BANK_MIN_BITS),
                   crispest := Max(t.crispest, chip.bits));
      var banked := up.(dipIndex := DipIndexFor(up.lifetimeChips));
      Fold(if confirmed then banked.(lastBankAt := at) else banked, f.proofs + {key}, f.seen, f.moves + [Banked])
  }

  function ApplyChips(v: Verified, f: Fold, chips: seq<Chip>, confirmed: bool, at: nat): Fold
    decreases |chips|
  {
    if chips == [] then f else ApplyChips(v, ApplyChip(v, f, chips[0], confirmed, at), chips[1..], confirmed, at)
  }

  // ------------------------------------------------------------------ the fold

  /** Confirmed replies advance the decay clock; pending ones never do. */
  function Tick(t: Table, r: Reply): Table {
    if r.height.None? then t
    else
      var crumbs := if t.lastConfirmedAt > 0 then Soggy(t.crumbs, SogNum(t), SogHours(t.lastConfirmedAt, r.createdAt)) else t.crumbs;
      t.(crumbs := crumbs, lastConfirmedAt := Max(t.lastConfirmedAt, r.createdAt))
  }

  function Settle(f: Fold, r: (Table, Outcome)): Fold {
    f.(table := r.0, moves := f.moves + [r.1])
  }

  function SeenKey(r: Reply): Option<Seen> {
    match r.move
    case Tip(_) => Some(SeenTip(r.ms))
    case Broke(paid) => Some(SeenBroke(paid, r.ms))
    case Dip(amount) => Some(SeenDip(amount, r.ms))
    case _ => None
  }

  function FoldStep(cat: Catalog, v: Verified, f0: Fold, r: Reply): Fold {
    if r.move.Unparsed? then f0.(moves := f0.moves + [RejectedParse])
    else
      var f1 := f0.(table := Tick(f0.table, r));
      var confirmed := r.height.Some?;
      var at := if confirmed then r.createdAt else f1.table.lastConfirmedAt;
      var key := SeenKey(r);
      if key.Some? && key.value in f1.seen then f1.(moves := f1.moves + [RejectedDuplicate])
      else
        var f := if key.Some? then f1.(seen := f1.seen + {key.value}) else f1;
        match r.move
        case Oversize => f.(moves := f.moves + [RejectedOversize])
        case Bank(chips) => ApplyChips(v, f, chips, confirmed, at)
        case Tip(keep) => Settle(f, ApplyTip(cat, f.table, keep, confirmed, at))
        case Burn(k) => Settle(f, ApplyBurn(cat, f.table, k))
        case Spend(ability, cost) => Settle(f, ApplySpend(f.table, ability, cost))
        case Broke(paid) => Settle(f, ApplyBroke(f.table, paid, confirmed, at))
        case Dip(amount) => Settle(f, (ApplyDip(f.table, amount, confirmed, at), Dipped))
        case Buy(k) => Settle(f, ApplyBuy(cat, f.table, k))
        case Unparsed => f
  }

  function FoldAll(cat: Catalog, v: Verified, f: Fold, rs: seq<Reply>): Fold
    decreases |rs|
  {
    if rs == [] then f else FoldAll(cat, v, FoldStep(cat, v, f, rs[0]), rs[1..])
  }

  lemma {:induction false} FoldAppend(cat: Catalog, v: Verified, f: Fold, a: seq<Reply>, b: seq<Reply>)
    ensures FoldAll(cat, v, f, a + b) == FoldAll(cat, v, FoldAll(cat, v, f, a), b)
    decreases |a|
  {
    if a == [] {
      assert a + b == b;
    } else {
      assert (a + b)[1..] == a[1..] + b && (a + b)[0] == a[0];
      FoldAppend(cat, v, FoldStep(cat, v, f, a[0]), a[1..], b);
    }
  }
}

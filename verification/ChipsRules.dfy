/**
 The table rules in numbers (chips-client/src/lib/chipsEngine.ts, chipsConst.ts):
 what each move changes and what it leaves alone, with every rounding stated by
 its bounds and the figures of the catalogue written out.
 */
module ChipsRules {
  import opened Wrappers
  import opened ChipsEngine
  import opened ChipsCopies

  /** `r` is `a` times `num` over `den`, rounded down. */
  predicate IsFloor(r: nat, a: nat, num: nat, den: nat) {
    r * den <= a * num < (r + 1) * den
  }

  lemma ScaleIsFloor(a: nat, num: nat, den: nat)
    requires den > 0
    ensures IsFloor(Scale(a, num, den), a, num, den)
  {
    assert a * num >= 0;
  }

  lemma FloorIsUnique(r: nat, q: nat, a: nat, num: nat, den: nat)
    requires IsFloor(r, a, num, den) && IsFloor(q, a, num, den)
    ensures r == q
  {
    assert r < q ==> (r + 1) * den <= q * den;
    assert q < r ==> (q + 1) * den <= r * den;
  }

  // ------------------------------------------------------------------ tiers

  const FLOORS: seq<nat> := [0, 150, 1_000, 4_000, 40_000, 120_000, 350_000, 1_000_000]

  /** `i` is the deepest tier this lifetime has reached. */
  ghost predicate IsTier(lifetime: nat, i: nat) {
    i < 8 && FLOORS[i] <= lifetime && (i < 7 ==> lifetime < FLOORS[i + 1])
  }

  lemma {:induction false} DipIndexIsTier(lifetime: nat, n: nat)
    requires 0 < n <= 8 && (n < 8 ==> lifetime < FLOORS[n])
    ensures IsTier(lifetime, DipIndexUpTo(lifetime, n))
    decreases n
  {
    assert TIER_FLOORS == FLOORS;
    if n > 1 && lifetime < FLOORS[n - 1] {
      DipIndexIsTier(lifetime, n - 1);
    }
  }

  ghost predicate Tiered(t: Table) {
    IsTier(t.lifetimeChips, t.dipIndex)
  }

  lemma {:induction false} ChipsKeepTier(v: Verified, f: Fold, chips: seq<Chip>, confirmed: bool, at: nat)
    requires Tiered(f.table)
    ensures Tiered(ApplyChips(v, f, chips, confirmed, at).table)
    decreases |chips|
  {
    if chips != [] {
      ChipKeepsTier(v, f, chips[0], confirmed, at);
      ChipsKeepTier(v, ApplyChip(v, f, chips[0], confirmed, at), chips[1..], confirmed, at);
    }
  }

  lemma ChipKeepsTier(v: Verified, f: Fold, chip: Chip, confirmed: bool, at: nat)
    requires Tiered(f.table)
    ensures Tiered(ApplyChip(v, f, chip, confirmed, at).table)
  {
    DipIndexIsTier(ApplyChip(v, f, chip, confirmed, at).table.lifetimeChips, 8);
  }

  lemma DipKeepsTier(t: Table, amount: nat, confirmed: bool, at: nat)
    ensures Tiered(ApplyDip(t, amount, confirmed, at))
  {
    DipIndexIsTier(ApplyDip(t, amount, confirmed, at).lifetimeChips, 8);
  }

  lemma BlowKeepsTier(t: Table, paid: nat, confirmed: bool, at: nat)
    requires Tiered(t)
    ensures Tiered(ApplyBroke(t, paid, confirmed, at).0)
  {
    var s := BrokeShape(t, paid, confirmed, at);
  }

  lemma BankStepKeepsTier(cat: Catalog, v: Verified, f: Fold, r: Reply)
    requires r.move.Bank? && Tiered(f.table)
    ensures Tiered(FoldStep(cat, v, f, r).table)
  {
    var t := Tick(f.table, r);
    ChipsKeepTier(v, f.(table := t), r.move.chips, r.height.Some?, if r.height.Some? then r.createdAt else t.lastConfirmedAt);
  }

  lemma DipStepKeepsTier(cat: Catalog, v: Verified, f: Fold, r: Reply)
    requires r.move.Dip? && Tiered(f.table)
    ensures Tiered(FoldStep(cat, v, f, r).table)
  {
    var t := Tick(f.table, r);
    DipKeepsTier(t, r.move.amount, r.height.Some?, if r.height.Some? then r.createdAt else t.lastConfirmedAt);
  }

  lemma BlowStepKeepsTier(cat: Catalog, v: Verified, f: Fold, r: Reply)
    requires r.move.Broke? && Tiered(f.table)
    ensures Tiered(FoldStep(cat, v, f, r).table)
  {
    var t := Tick(f.table, r);
    BlowKeepsTier(t, r.move.paid, r.height.Some?, if r.height.Some? then r.createdAt else t.lastConfirmedAt);
  }

  lemma TipKeepsTier(cat: Catalog, t: Table, keep: Option<Jar>, confirmed: bool, at: nat)
    requires Tiered(t)
    ensures Tiered(ApplyTip(cat, t, keep, confirmed, at).0)
  {
  }

  lemma TipStepKeepsTier(cat: Catalog, v: Verified, f: Fold, r: Reply)
    requires r.move.Tip? && Tiered(f.table)
    ensures Tiered(FoldStep(cat, v, f, r).table)
  {
    var t := Tick(f.table, r);
    TipKeepsTier(cat, t, r.move.keep, r.height.Some?, if r.height.Some? then r.createdAt else t.lastConfirmedAt);
  }

  lemma BuyStepKeepsTier(cat: Catalog, v: Verified, f: Fold, r: Reply)
    requires r.move.Buy? && Tiered(f.table)
    ensures Tiered(FoldStep(cat, v, f, r).table)
  {
    var t := Tick(f.table, r);
    assert ApplyBuy(cat, t, r.move.key).0.dipIndex == t.dipIndex && ApplyBuy(cat, t, r.move.key).0.lifetimeChips == t.lifetimeChips;
  }

  lemma OtherStepKeepsTier(cat: Catalog, v: Verified, f: Fold, r: Reply)
    requires r.move.Burn? || r.move.Spend? || r.move.Oversize? || r.move.Unparsed?
    requires Tiered(f.table)
    ensures Tiered(FoldStep(cat, v, f, r).table)
  {
  }

  lemma StepKeepsTier(cat: Catalog, v: Verified, f: Fold, r: Reply)
    requires Tiered(f.table)
    ensures Tiered(FoldStep(cat, v, f, r).table)
  {
    match r.move {
      case Bank(_) => BankStepKeepsTier(cat, v, f, r);
      case Dip(_) => DipStepKeepsTier(cat, v, f, r);
      case Broke(_) => BlowStepKeepsTier(cat, v, f, r);
      case Tip(_) => TipStepKeepsTier(cat, v, f, r);
      case Buy(_) => BuyStepKeepsTier(cat, v, f, r);
      case _ => OtherStepKeepsTier(cat, v, f, r);
    }
  }

  /** Over every fold the dip on the table is the deepest the run's lifetime has reached. */
  lemma {:induction false} TierFollowsLifetime(cat: Catalog, v: Verified, f: Fold, rs: seq<Reply>)
    requires Tiered(f.table)
    ensures Tiered(FoldAll(cat, v, f, rs).table)
    decreases |rs|
  {
    if rs != [] {
      StepKeepsTier(cat, v, f, rs[0]);
      TierFollowsLifetime(cat, v, FoldStep(cat, v, f, rs[0]), rs[1..]);
    }
  }

  lemma FreshIsTiered()
    ensures Tiered(START.table)
  {
  }

  // ------------------------------------------------------------------ banks

  /** The chip is verified at its bits, worth banking, and not banked before. */
  ghost predicate Honoured(v: Verified, f: Fold, chip: Chip) {
    var key := (chip.ms, chip.nonce);
    key in v && chip.bits >= 8 && v[key] >= chip.bits && key !in f.proofs
  }

  /**
   What an honoured chip earns, rounding down at each stage and in this order: a
   thousand crumbs doubled per bit over eight; five halves of that if it is golden; a
   tenth more under guacamole; twice that under queso left alone for
   twelve hours; the seasoning; and twice the whole on a double dip.
   */
  lemma ChipPays(v: Verified, f: Fold, chip: Chip, confirmed: bool, at: nat)
    returns (gold: nat, dipped: nat, held: nat, seasoned: nat)
    requires Honoured(v, f, chip) && f.table.seasoningDen > 0
    ensures var t, base := f.table, 1_000 * Pow2(chip.bits - 8);
            && (if chip.bits >= t.goldenBits then IsFloor(gold, base, 5, 2) else gold == base)
            && (if t.dipIndex == 1 then IsFloor(dipped, gold, 11, 10) else dipped == gold)
            && held == (if t.dipIndex == 3 && t.lastBankAt > 0 && at >= t.lastBankAt + 12 * 3_600_000 then 2 * dipped else dipped)
            && IsFloor(seasoned, held, t.seasoningNum, t.seasoningDen)
            && ApplyChip(v, f, chip, confirmed, at).table.crumbs ==
               Min(t.bowlCap, t.crumbs + (if t.doubleDipMod > 0 && chip.nonce % t.doubleDipMod == 0 then 2 * seasoned else seasoned))
  {
    var t, base := f.table, 1_000 * Pow2(chip.bits - 8);
    gold := if chip.bits >= t.goldenBits then Scale(base, 5, 2) else base;
    dipped := if t.dipIndex == 1 then Scale(gold, 11, 10) else gold;
    held := if t.dipIndex == 3 && t.lastBankAt > 0 && at >= t.lastBankAt + 12 * 3_600_000 then 2 * dipped else dipped;
    seasoned := Scale(held, t.seasoningNum, t.seasoningDen);
    ScaleIsFloor(base, 5, 2);
    ScaleIsFloor(gold, 11, 10);
    ScaleIsFloor(held, t.seasoningNum, t.seasoningDen);
  }

  /** On a table with no bonus: a thousand crumbs, doubled for each bit over eight. */
  lemma PlainChipPays(v: Verified, f: Fold, chip: Chip, confirmed: bool, at: nat)
    requires Honoured(v, f, chip) && chip.bits < f.table.goldenBits && f.table.dipIndex != 1 && f.table.dipIndex != 3
    requires f.table.seasoningNum == f.table.seasoningDen > 0 && f.table.doubleDipMod == 0
    ensures ApplyChip(v, f, chip, confirmed, at).table.crumbs == Min(f.table.bowlCap, f.table.crumbs + 1_000 * Pow2(chip.bits - 8))
  {
    var gold, dipped, held, seasoned := ChipPays(v, f, chip, confirmed, at);
    assert IsFloor(held, held, f.table.seasoningNum, f.table.seasoningDen) by {
      assert (held + 1) * f.table.seasoningDen == held * f.table.seasoningDen + f.table.seasoningDen;
    }
    FloorIsUnique(seasoned, held, held, f.table.seasoningNum, f.table.seasoningDen);
  }

  /** The rest of what an honoured chip changes, and nothing else. */
  lemma ChipCounts(v: Verified, f: Fold, chip: Chip, confirmed: bool, at: nat)
    requires Honoured(v, f, chip)
    ensures var t, g := f.table, ApplyChip(v, f, chip, confirmed, at);
            && g.table == t.(crumbs := g.table.crumbs, lifetimeChips := t.lifetimeChips + Pow2(chip.bits - 8),
                             crispest := Max(t.crispest, chip.bits), dipIndex := g.table.dipIndex,
                             lastBankAt := if confirmed then at else t.lastBankAt)
            && Tiered(g.table) && g.proofs == f.proofs + {(chip.ms, chip.nonce)} && g.seen == f.seen && g.moves == f.moves + [Banked]
  {
    DipIndexIsTier(f.table.lifetimeChips + Pow2(chip.bits - 8), 8);
  }

  /** A chip that is not honoured changes nothing, and is answered by the first objection to it. */
  lemma ChipRefused(v: Verified, f: Fold, chip: Chip, confirmed: bool, at: nat)
    requires !Honoured(v, f, chip)
    ensures var key := (chip.ms, chip.nonce);
            ApplyChip(v, f, chip, confirmed, at) ==
            f.(moves := f.moves + [if key !in v then RejectedUnverified
                                   else if chip.bits < 8 || v[key] < chip.bits then RejectedBits
                                   else RejectedDuplicate])
  {
  }

  /**
   Only the seasoning ever rounds: what a chip is worth before it is a whole number
   of crumbs per unit of work, so the gold, the dip and the congealing may be taken
   in any order, although the source warns that no two steps may be swapped.
   */
  lemma OnlySeasoningRounds(v: Verified, f: Fold, chip: Chip, confirmed: bool, at: nat)
    returns (gold: nat, dipped: nat, held: nat, seasoned: nat)
    requires Honoured(v, f, chip) && f.table.seasoningDen > 0
    ensures var t, work := f.table, Pow2(chip.bits - 8);
            && gold == (if chip.bits >= t.goldenBits then 2_500 else 1_000) * work
            && 10 * dipped == (if t.dipIndex == 1 then 11 else 10) * gold
            && held == (if t.dipIndex == 3 && t.lastBankAt > 0 && at >= t.lastBankAt + 12 * 3_600_000 then 2 else 1) * dipped
            && IsFloor(seasoned, held, t.seasoningNum, t.seasoningDen)
            && ApplyChip(v, f, chip, confirmed, at).table.crumbs ==
               Min(t.bowlCap, t.crumbs + (if t.doubleDipMod > 0 && chip.nonce % t.doubleDipMod == 0 then 2 * seasoned else seasoned))
  {
    var work := Pow2(chip.bits - 8);
    gold, dipped, held, seasoned := ChipPays(v, f, chip, confirmed, at);
    if chip.bits >= f.table.goldenBits {
      FloorIsUnique(gold, 2_500 * work, 1_000 * work, 5, 2);
    }
    var tenths := (if chip.bits >= f.table.goldenBits then 250 else 100) * work;
    assert gold == 10 * tenths;
    if f.table.dipIndex == 1 {
      FloorIsUnique(dipped, 11 * tenths, gold, 11, 10);
    }
  }

  const LONE_CHIP: Chip := Chip(5, 8, 3)
  const LONE_PROOF: Verified := map[(5, 3) := 8]

  ghost function With(t: Table): Fold {
    Fold(t, {}, {}, [])
  }

  /**
   Seasoning comes after the gold, the dip and the congealing and before the double
   dip; the figures it would give on the other side are 1665, 732, 1332 and 1333.
   */
  lemma SeasoningHasItsPlace()
    ensures var t := FRESH.(seasoningNum := 2, seasoningDen := 3);
            && ApplyChip(LONE_PROOF, With(t.(goldenBits := 8)), LONE_CHIP, false, 0).table.crumbs == 1_666
            && ApplyChip(LONE_PROOF, With(t.(dipIndex := 1)), LONE_CHIP, false, 0).table.crumbs == 733
            && ApplyChip(LONE_PROOF, With(t.(dipIndex := 3, lastBankAt := 1)), LONE_CHIP, false, 43_200_001).table.crumbs == 1_333
            && ApplyChip(LONE_PROOF, With(t.(doubleDipMod := 3)), LONE_CHIP, false, 0).table.crumbs == 1_332
            && Scale(Scale(1_000, 2, 3), 5, 2) == 1_665 && Scale(Scale(1_000, 2, 3), 11, 10) == 732
            && 2 * Scale(1_000, 2, 3) == 1_332 && Scale(2 * 1_000, 2, 3) == 1_333
  {
  }

  // ------------------------------------------------------------------ softening

  /** `cs` is a bowl hour by hour, each hour keeping `num` hundredths of the one before, rounded down. */
  ghost predicate Softens(cs: seq<nat>, num: nat) {
    |cs| > 0 && forall i :: 0 < i < |cs| ==> IsFloor(cs[i], cs[i - 1], num, 100)
  }

  lemma {:induction false} SoggySoftens(crumbs: nat, num: nat, hours: nat) returns (cs: seq<nat>)
    ensures |cs| == hours + 1 && cs[0] == crumbs && Softens(cs, num) && cs[hours] == Soggy(crumbs, num, hours)
    decreases hours
  {
    if hours == 0 {
      cs := [crumbs];
    } else {
      var rest := SoggySoftens(Scale(crumbs, num, 100), num, hours - 1);
      ScaleIsFloor(crumbs, num, 100);
      NothingSoftens(num, hours - 1);
      cs := [crumbs] + rest;
    }
  }

  lemma NothingSoftens(num: nat, hours: nat)
    ensures Scale(0, num, 100) == 0 && Soggy(0, num, hours) == 0
  {
  }

  /**
   A confirmed reply softens the bowl by every whole hour since the last confirmed
   one, at most thirty days of them, and moves the clock on but never back; a
   pending reply does neither.
   */
  lemma TickSoftens(t: Table, r: Reply) returns (cs: seq<nat>)
    ensures Softens(cs, (if t.dipIndex == 1 then 96 else 97) + (if t.airtight then 2 else 0) + t.sogBonus)
    ensures cs[0] == t.crumbs && Tick(t, r) == t.(crumbs := cs[|cs| - 1], lastConfirmedAt := Tick(t, r).lastConfirmedAt)
    ensures Tick(t, r).lastConfirmedAt == if r.height.Some? then Max(t.lastConfirmedAt, r.createdAt) else t.lastConfirmedAt
    ensures if r.height.None? || t.lastConfirmedAt == 0 || r.createdAt <= t.lastConfirmedAt then |cs| == 1
            else if r.createdAt - t.lastConfirmedAt >= 720 * 3_600_000 then |cs| == 721
            else 3_600_000 * (|cs| - 1) <= r.createdAt - t.lastConfirmedAt < 3_600_000 * |cs|
  {
    var hours := if r.height.None? || t.lastConfirmedAt == 0 then 0 else SogHours(t.lastConfirmedAt, r.createdAt);
    cs := SoggySoftens(t.crumbs, SogNum(t), hours);
  }

  // ------------------------------------------------------------------ dips, jars, abilities

  /** A dip stores what fits and counts chips to the nearest thousand crumbs, halves up and never none. */
  lemma DipCounts(t: Table, amount: nat, confirmed: bool, at: nat) returns (chips: nat)
    ensures var u := ApplyDip(t, amount, confirmed, at);
            && u == t.(crumbs := Min(t.bowlCap, t.crumbs + amount), lifetimeChips := t.lifetimeChips + chips,
                       dipIndex := u.dipIndex, lastBankAt := if confirmed then at else t.lastBankAt)
            && Tiered(u)
    ensures if amount < 500 then chips == 1 else 1_000 * chips <= amount + 500 < 1_000 * (chips + 1)
  {
    chips := Max(1, (2 * amount + 1_000) / 2_000);
    DipIndexIsTier(t.lifetimeChips + chips, 8);
  }

  /** A refused jar pays seven tenths of its price, rounded down, into what room there is. */
  lemma BurnPays(cat: Catalog, t: Table, key: Jar) returns (refund: nat)
    requires key in cat.jars
    ensures IsFloor(refund, cat.jars[key].cost, 7, 10)
    ensures ApplyBurn(cat, t, key) ==
            if key in t.owned || key in t.declined then (t, RejectedUnowned)
            else if !InOrder(cat, t.owned, key) then (t, RejectedOrder)
            else (t.(declined := t.declined + {key}, crumbs := Min(t.bowlCap, t.crumbs + refund)), Burned)
  {
    refund := Scale(cat.jars[key].cost, 70, 100);
  }

  /** `u` is `t` with jar `key` on the shelf: what the jar names is set or added, and all else but the crumbs is as it was. */
  ghost predicate Fitted(t: Table, u: Table, key: Jar, j: Upgrade) {
    && u.owned == t.owned + {key}
    && (j.bowlCap == Some(u.bowlCap) || (j.bowlCap.None? && u.bowlCap == t.bowlCap))
    && (j.seasoning == Some((u.seasoningNum, u.seasoningDen)) ||
        (j.seasoning.None? && u.seasoningNum == t.seasoningNum && u.seasoningDen == t.seasoningDen))
    && (j.fryers == Some(u.fryers) || (j.fryers.None? && u.fryers == t.fryers))
    && (j.goldenBits == Some(u.goldenBits) || (j.goldenBits.None? && u.goldenBits == t.goldenBits))
    && (j.doubleDipMod == Some(u.doubleDipMod) || (j.doubleDipMod.None? && u.doubleDipMod == t.doubleDipMod))
    && (u.airtight <==> t.airtight || j.airtight) && u.sogBonus == t.sogBonus + j.sogBonus
    && t == u.(crumbs := t.crumbs, owned := t.owned, bowlCap := t.bowlCap, seasoningNum := t.seasoningNum,
               seasoningDen := t.seasoningDen, fryers := t.fryers, goldenBits := t.goldenBits,
               airtight := t.airtight, sogBonus := t.sogBonus, doubleDipMod := t.doubleDipMod)
  }

  /** A jar bought takes its price and is fitted. */
  lemma JarGives(cat: Catalog, t: Table, key: Jar)
    requires ApplyBuy(cat, t, key).1 == Bought
    ensures key in cat.jars && key !in t.owned && cat.jars[key].cost <= t.crumbs
    ensures ApplyBuy(cat, t, key).0.crumbs + cat.jars[key].cost == t.crumbs
    ensures Fitted(t, ApplyBuy(cat, t, key).0, key, cat.jars[key])
  {
  }

  // ------------------------------------------------------------------ salt

  /** The salt a run of this lifetime leaves: ten times the square root of its four-thousands, none below the first. */
  ghost predicate IsSalt(lifetime: nat, salt: nat) {
    if lifetime < 4_000 then salt == 0 else 4_000 * salt * salt <= 100 * lifetime < 4_000 * (salt + 1) * (salt + 1)
  }

  lemma SaltIs(lifetime: nat)
    ensures IsSalt(lifetime, SaltFor(lifetime))
  {
    if lifetime >= 4_000 {
      var s, n := SaltFor(lifetime), lifetime / 40;
      SquareFloor(lifetime, n, s);
    }
  }

  lemma SquareFloor(lifetime: nat, n: nat, s: nat)
    requires 40 * n <= lifetime < 40 * (n + 1) && s * s <= n < (s + 1) * (s + 1)
    ensures 4_000 * s * s <= 100 * lifetime < 4_000 * (s + 1) * (s + 1)
  {
    var low, high := s * s, (s + 1) * (s + 1);
    assert 4_000 * s * s == 4_000 * low && 4_000 * (s + 1) * (s + 1) == 4_000 * high;
  }

  /** Two runs earn more salt than one of twice the length exactly when each is deep enough to be tipped at all. */
  lemma TwoShortRunsBeatIff(lifetime: nat)
    ensures 2 * SaltFor(lifetime) > SaltFor(2 * lifetime) <==> lifetime >= 4_000
  {
    if lifetime >= 4_000 {
      var n, m := lifetime / 40, 2 * lifetime / 40;
      assert n >= 100 && m <= 2 * n + 1;
      RootsBeat(n, m, Isqrt(n), Isqrt(m));
    }
  }

  lemma RootsBeat(n: nat, m: nat, s: nat, l: nat)
    requires n >= 100 && m <= 2 * n + 1 && n < (s + 1) * (s + 1) && l * l <= m
    ensures 2 * s > l
  {
    assert s < 9 ==> (s + 1) * (s + 1) <= 100;
    assert l >= 2 * s ==> l * l >= 4 * s * s;
    assert s >= 9 ==> s * s >= 9 * s;
  }

  /** A tip too shallow for salt changes nothing; any other leaves a new bowl with the salt and the prestige. */
  lemma TipLeaves(cat: Catalog, t: Table, keep: Option<Jar>, confirmed: bool, at: nat) returns (salt: nat)
    requires keep.None? || "crack" !in t.charOwned || keep.value !in t.owned
    ensures IsSalt(t.lifetimeChips, salt)
    ensures ApplyTip(cat, t, keep, confirmed, at) ==
            if t.lifetimeChips < 4_000 then (t, RejectedShallow)
            else (FRESH.(oldSalt := t.oldSalt + salt, tips := t.tips + 1, deepest := t.deepest, grains := t.grains,
                         bowls := t.bowls, paidToBosses := t.paidToBosses, charOwned := t.charOwned,
                         lastConfirmedAt := t.lastConfirmedAt, lastBankAt := if confirmed then at else t.lastBankAt), Tipped)
  {
    salt := SaltFor(t.lifetimeChips);
    SaltIs(t.lifetimeChips);
  }

  /** With the crack, an owned jar is fitted to the new bowl as a purchase would fit it, for nothing. */
  lemma TipCarriesJar(cat: Catalog, t: Table, key: Jar, confirmed: bool, at: nat)
    requires "crack" in t.charOwned && key in t.owned && key in cat.jars && t.lifetimeChips >= 4_000
    ensures var plain, kept := ApplyTip(cat, t, None, confirmed, at), ApplyTip(cat, t, Some(key), confirmed, at);
            && plain.1 == kept.1 == Tipped && kept.0.crumbs == plain.0.crumbs == 0
            && Fitted(plain.0, kept.0, key, cat.jars[key])
  {
    SaltIs(t.lifetimeChips);
  }

  // ------------------------------------------------------------------ the descent

  const BARS: seq<nat> := [0, 12_000_000_000, 48_000_000_000, 160_000_000_000, 512_000_000_000, 1_536_000_000_000]
  const CHAR: seq<nat> := [1, 2, 3, 5, 8, 13]

  /** The damage the current band takes: what the first blow froze, or the band's own figure before it. */
  ghost function Bar(t: Table): nat
    requires t.broken < 6
  {
    if t.broken == 0 then 0 else if t.bossHpFrozen > 0 then t.bossHpFrozen else BARS[t.broken]
  }

  lemma BarIs(band: nat)
    requires 0 < band < 6
    ensures BossHp(band) == BARS[band]
  {
    assert Pow2(2) == 4;
    assert Pow2(3) == 8;
    assert Pow2(4) == 16;
    assert Pow2(5) == 32;
    assert Pow2(6) == 64;
  }

  /** A band may be struck once the run is two million chips deep, doubled for each band above it. */
  ghost predicate Deep(t: Table) {
    t.broken < 6 && t.lifetimeChips >= 2_000_000 * Pow2(t.broken)
  }

  lemma BlowRefused(t: Table, paid: nat, confirmed: bool, at: nat)
    requires !Deep(t)
    ensures ApplyBroke(t, paid, confirmed, at) == (t, if t.broken >= 6 then RejectedOrder else RejectedShallow)
  {
  }

  /** A blow that leaves the damage short of the bar wears the band down and freezes the bar. */
  lemma BlowChips(t: Table, paid: nat, confirmed: bool, at: nat)
    requires Deep(t) && t.bossDamage + paid < Bar(t) && t.broken > 0
    ensures ApplyBroke(t, paid, confirmed, at) ==
            (t.(paidToBosses := t.paidToBosses + paid, bossDamage := t.bossDamage + paid, bossHpFrozen := Bar(t)), Chipped)
  {
    BarIs(t.broken);
  }

  /** What a broken band leaves: char for a new depth only, and a new bowl after the last. */
  ghost function Broken(t: Table, salt: nat, confirmed: bool, at: nat): Table
    requires t.broken < 6
  {
    var grains := t.grains + (if t.broken + 1 > t.deepest then CHAR[t.broken] else 0);
    if t.broken < 5 then t.(broken := t.broken + 1, deepest := Max(t.deepest, t.broken + 1), grains := grains)
    else FRESH.(oldSalt := t.oldSalt + salt, tips := t.tips + 1, bowls := t.bowls + 1, grains := grains,
                deepest := Max(t.deepest, 6), paidToBosses := t.paidToBosses, charOwned := t.charOwned,
                bossDamage := t.bossDamage, bossHpFrozen := t.bossHpFrozen,
                lastConfirmedAt := t.lastConfirmedAt, lastBankAt := if confirmed then at else t.lastBankAt)
  }

  lemma BreakLeaves(t: Table, confirmed: bool, at: nat)
    requires t.broken < 6
    ensures BreakBand(t, confirmed, at) == Broken(t, SaltFor(t.lifetimeChips), confirmed, at)
  {
    assert CHAR == CHAR_PER_BAND;
  }

  /** A blow that reaches the bar breaks the band and clears the fight for the one under it. */
  lemma BlowBreaks(t: Table, paid: nat, confirmed: bool, at: nat) returns (salt: nat)
    requires Deep(t) && (t.broken == 0 || t.bossDamage + paid >= Bar(t))
    ensures IsSalt(t.lifetimeChips, salt)
    ensures var fed := t.(paidToBosses := t.paidToBosses + paid);
            ApplyBroke(t, paid, confirmed, at) ==
            (Broken(if t.broken == 0 then fed else fed.(bossDamage := 0, bossHpFrozen := 0), salt, confirmed, at), BrokeBand)
  {
    salt := SaltFor(t.lifetimeChips);
    SaltIs(t.lifetimeChips);
    var fed := t.(paidToBosses := t.paidToBosses + paid);
    if t.broken == 0 {
      BreakLeaves(fed, confirmed, at);
    } else {
      BarIs(t.broken);
      BreakLeaves(fed.(bossDamage := 0, bossHpFrozen := 0), confirmed, at);
      assert ApplyBroke(t, paid, confirmed, at) == BossBlow(fed, Bar(t), paid, confirmed, at);
    }
  }

  ghost function Total(blows: seq<nat>): nat {
    if blows == [] then 0 else blows[0] + Total(blows[1..])
  }

  ghost function Struck(t: Table, blows: seq<nat>): Table
    decreases |blows|
  {
    if blows == [] then t else Struck(ApplyBroke(t, blows[0], false, 0).0, blows[1..])
  }

  /** However a fight is split into blows, the band stands exactly as long as all of them together stay short of its bar. */
  lemma {:induction false} BandStandsWhileShort(t: Table, blows: seq<nat>)
    requires Deep(t) && t.broken > 0 && t.bossDamage + Total(blows) < Bar(t)
    ensures Struck(t, blows) == t.(paidToBosses := t.paidToBosses + Total(blows), bossDamage := t.bossDamage + Total(blows),
                                   bossHpFrozen := if blows == [] then t.bossHpFrozen else Bar(t))
    decreases |blows|
  {
    if blows != [] {
      BlowChips(t, blows[0], false, 0);
      BandStandsWhileShort(ApplyBroke(t, blows[0], false, 0).0, blows[1..]);
    }
  }

  lemma {:induction false} StruckAppend(t: Table, blows: seq<nat>, last: nat)
    ensures Struck(t, blows + [last]) == ApplyBroke(Struck(t, blows), last, false, 0).0
    ensures Total(blows + [last]) == Total(blows) + last
    decreases |blows|
  {
    if blows == [] {
      assert blows + [last] == [last] && [last][1..] == [];
    } else {
      assert (blows + [last])[1..] == blows[1..] + [last] && (blows + [last])[0] == blows[0];
      StruckAppend(ApplyBroke(t, blows[0], false, 0).0, blows[1..], last);
    }
  }

  lemma BandFallsIff(t: Table, blows: seq<nat>, last: nat)
    requires Deep(t) && t.broken > 0 && t.bossDamage + Total(blows) < Bar(t)
    ensures Struck(t, blows + [last]).broken == t.broken <==> t.bossDamage + Total(blows + [last]) < Bar(t)
  {
    BandStandsWhileShort(t, blows);
    StruckAppend(t, blows, last);
    var u := Struck(t, blows);
    if u.bossDamage + last < Bar(u) {
      BlowChips(u, last, false, 0);
    } else {
      var _ := BlowBreaks(u, last, false, 0);
    }
  }

  // ------------------------------------------------------------------ marks and the clock

  /** Two accumulating moves count as one exactly when verb, amount and authoring time agree; tips carry no amount. */
  lemma MarksEqualIff(a: Reply, b: Reply)
    requires SeenKey(a).Some?
    ensures SeenKey(a) == SeenKey(b) <==>
            && a.ms == b.ms
            && match (a.move, b.move)
               case (Tip(_), Tip(_)) => true
               case (Dip(x), Dip(y)) => x == y
               case (Broke(x), Broke(y)) => x == y
               case _ => false
    ensures a.move.Tip? || a.move.Dip? || a.move.Broke?
  {
  }

  /** A move already counted is refused; the clock moves on all the same, and nothing else does. */
  lemma CopyOnlyTicks(cat: Catalog, v: Verified, f: Fold, r: Reply)
    requires SeenKey(r).Some? && SeenKey(r).value in f.seen
    ensures FoldStep(cat, v, f, r) == f.(table := Tick(f.table, r), moves := f.moves + [RejectedDuplicate])
  {
  }

  /** An oversize bank is refused after the clock moved on, an unparsed body before. */
  lemma RefusedBodies(cat: Catalog, v: Verified, f: Fold, r: Reply)
    ensures r.move.Oversize? ==> FoldStep(cat, v, f, r) == f.(table := Tick(f.table, r), moves := f.moves + [RejectedOversize])
    ensures r.move.Unparsed? ==> FoldStep(cat, v, f, r) == f.(moves := f.moves + [RejectedParse])
  {
  }

  /** A reply that moves the clock: confirmed and parsed. */
  ghost predicate Times(r: Reply) {
    r.height.Some? && !r.move.Unparsed?
  }

  lemma {:induction false} ChipsKeepClock(v: Verified, f: Fold, chips: seq<Chip>, confirmed: bool, at: nat)
    ensures ApplyChips(v, f, chips, confirmed, at).table.lastConfirmedAt == f.table.lastConfirmedAt
    decreases |chips|
  {
    if chips != [] {
      ChipsKeepClock(v, ApplyChip(v, f, chips[0], confirmed, at), chips[1..], confirmed, at);
    }
  }

  lemma BlowKeepsClock(t: Table, paid: nat, confirmed: bool, at: nat)
    ensures ApplyBroke(t, paid, confirmed, at).0.lastConfirmedAt == t.lastConfirmedAt
  {
    var s := BrokeShape(t, paid, confirmed, at);
  }

  lemma StepMovesClock(cat: Catalog, v: Verified, f: Fold, r: Reply)
    ensures FoldStep(cat, v, f, r).table.lastConfirmedAt ==
            if Times(r) then Max(f.table.lastConfirmedAt, r.createdAt) else f.table.lastConfirmedAt
  {
    var t := Tick(f.table, r);
    var at := if r.height.Some? then r.createdAt else t.lastConfirmedAt;
    if r.move.Bank? {
      ChipsKeepClock(v, f.(table := t), r.move.chips, r.height.Some?, at);
    } else if r.move.Broke? {
      BlowKeepsClock(t, r.move.paid, r.height.Some?, at);
    }
  }

  /** The clock after a fold is the latest creation time it has seen on a confirmed, parsed reply, whatever became of the move. */
  lemma {:induction false} ClockIsLatest(cat: Catalog, v: Verified, f: Fold, rs: seq<Reply>)
    ensures var now := FoldAll(cat, v, f, rs).table.lastConfirmedAt;
            && now >= f.table.lastConfirmedAt && (forall r <- rs | Times(r) :: now >= r.createdAt)
            && (now == f.table.lastConfirmedAt || exists r :: r in rs && Times(r) && r.createdAt == now)
    decreases |rs|
  {
    if rs != [] {
      StepMovesClock(cat, v, f, rs[0]);
      ClockIsLatest(cat, v, FoldStep(cat, v, f, rs[0]), rs[1..]);
      assert rs == [rs[0]] + rs[1..];
    }
  }
}

/**
 Char is minted once per band, ever, so the supply is fixed
 (chips-client/src/lib/chipsEngine.ts, the broke and spend branches).
 */
module ChipsLedger {
  import opened Wrappers
  import opened ChipsEngine

  /** Every grain the first `n` bands will ever pay. */
  ghost function Minted(n: nat): nat
    requires n <= DEEP_BAND_COUNT
  {
    if n == 0 then 0 else Minted(n - 1) + CHAR_PER_BAND[n - 1]
  }

  const CHAR_TOTAL: nat := 32

  lemma SupplyIsCharTotal(n: nat)
    requires n <= DEEP_BAND_COUNT
    ensures Minted(n) <= CHAR_TOTAL && (n == DEEP_BAND_COUNT ==> Minted(n) == CHAR_TOTAL)
  {
    assert Minted(0) == 0 && Minted(1) == 1 && Minted(2) == 3;
    assert Minted(3) == 6 && Minted(4) == 11;
    assert Minted(5) == 19 && Minted(6) == 32;
  }

  ghost predicate Depths(t: Table) {
    t.broken < DEEP_BAND_COUNT && t.broken <= t.deepest <= DEEP_BAND_COUNT
  }

  /** What this reply spends of the char it finds. */
  ghost function SpentOn(t: Table, r: Reply): nat {
    if r.move.Spend? && r.move.ability !in t.charOwned && t.grains >= r.move.cost then r.move.cost else 0
  }

  ghost function TotalSpent(cat: Catalog, v: Verified, f: Fold, rs: seq<Reply>): nat
    decreases |rs|
  {
    if rs == [] then 0 else SpentOn(f.table, rs[0]) + TotalSpent(cat, v, FoldStep(cat, v, f, rs[0]), rs[1..])
  }

  /** `u` has what `t` had, plus what newly broken bands mint, minus `spent`. */
  ghost predicate Balanced(t: Table, u: Table, spent: nat)
    requires Depths(t)
  {
    Depths(u) && u.grains + spent + Minted(t.deepest) == t.grains + Minted(u.deepest)
  }

  lemma {:induction false} ChipsKeepChar(v: Verified, f: Fold, chips: seq<Chip>, confirmed: bool, at: nat)
    ensures var t := ApplyChips(v, f, chips, confirmed, at).table;
            t.grains == f.table.grains && t.deepest == f.table.deepest && t.broken == f.table.broken
    decreases |chips|
  {
    if chips != [] {
      ChipsKeepChar(v, ApplyChip(v, f, chips[0], confirmed, at), chips[1..], confirmed, at);
    }
  }

  lemma BreakIsBalanced(t: Table, confirmed: bool, at: nat)
    requires Depths(t)
    ensures Balanced(t, BreakBand(t, confirmed, at), 0)
  {
  }

  lemma BrokeIsBalanced(t: Table, paid: nat, confirmed: bool, at: nat)
    requires Depths(t)
    ensures Balanced(t, ApplyBroke(t, paid, confirmed, at).0, 0)
  {
    var s := BrokeShape(t, paid, confirmed, at);
    BreakIsBalanced(s, confirmed, at);
  }

  lemma TipIsBalanced(cat: Catalog, t: Table, keep: Option<Jar>, confirmed: bool, at: nat)
    requires Depths(t)
    ensures Balanced(t, ApplyTip(cat, t, keep, confirmed, at).0, 0)
  {
  }

  lemma StepIsBalanced(cat: Catalog, v: Verified, f: Fold, r: Reply)
    requires Depths(f.table)
    ensures Balanced(f.table, FoldStep(cat, v, f, r).table, SpentOn(f.table, r))
  {
    var t := Tick(f.table, r);
    var confirmed, at := r.height.Some?, if r.height.Some? then r.createdAt else t.lastConfirmedAt;
    match r.move {
      case Bank(chips) => ChipsKeepChar(v, f.(table := t), chips, confirmed, at);
      case Tip(keep) => TipIsBalanced(cat, t, keep, confirmed, at);
      case Broke(paid) => BrokeIsBalanced(t, paid, confirmed, at);
      case Buy(key) =>
      case Burn(key) =>
      case Spend(ability, cost) =>
      case Dip(amount) =>
      case Oversize =>
      case Unparsed =>
    }
  }

  lemma {:induction false} FoldIsBalanced(cat: Catalog, v: Verified, f: Fold, rs: seq<Reply>)
    requires Depths(f.table)
    ensures Balanced(f.table, FoldAll(cat, v, f, rs).table, TotalSpent(cat, v, f, rs))
    decreases |rs|
  {
    if rs != [] {
      StepIsBalanced(cat, v, f, rs[0]);
      FoldIsBalanced(cat, v, FoldStep(cat, v, f, rs[0]), rs[1..]);
    }
  }

  /**
   Whatever the replies say, the char held plus the char ever spent is exactly
   what the deepest band reached has paid, and never more than 32 grains; no
   number of descents mints a grain twice.
   */
  lemma CharIsConserved(cat: Catalog, v: Verified, rs: seq<Reply>)
    ensures var t := FoldAll(cat, v, START, rs).table;
            && t.deepest <= DEEP_BAND_COUNT
            && t.grains + TotalSpent(cat, v, START, rs) == Minted(t.deepest)
            && t.grains + TotalSpent(cat, v, START, rs) <= CHAR_TOTAL
  {
    FoldIsBalanced(cat, v, START, rs);
    SupplyIsCharTotal(FoldAll(cat, v, START, rs).table.deepest);
  }
}

/**
 The buy guard (chips-client/src/App.tsx, onBuy and foldNow;
 chips-client/src/lib/chipsAfford.ts, sogProjection.ts): clicks are checked
 against the crumbs on screen minus the price of queued buys the last fold has
 not consumed.

 A fold records the queue ids it consumed at once, but the table it computed
 reaches the screen only with the next render.
 */
module BuyDesk {
  import opened Wrappers
  import opened ChipsEngine
  import opened ChipsOrder
  import opened ChipsQueue
  import opened ChipsPending

  function CostOf(cat: Catalog, key: Jar): nat {
    if key in cat.jars then cat.jars[key].cost else 0
  }

  /** Total price of the queued buys of this table and identity that the last fold did not consume. */
  function PendingCost(cat: Catalog, q: Queue, table: nat, author: nat, folded: set<nat>): nat {
    if q == [] then 0
    else
      var n := |q| - 1;
      PendingCost(cat, q[..n], table, author, folded)
      + (if Active(q[n], table, author) && q[n].what.Buy? && q[n].id !in folded then CostOf(cat, q[n].what.key) else 0)
  }

  predicate QueuedBuy(q: Queue, table: nat, author: nat, key: Jar) {
    exists i | 0 <= i < |q| :: Active(q[i], table, author) && q[i].what == Buy(key)
  }

  /** No jar is queued twice. */
  ghost predicate BuysDistinct(q: Queue, table: nat, author: nat) {
    forall i, j | 0 <= i < j < |q| && Active(q[i], table, author) && Active(q[j], table, author)
                  && q[i].what.Buy? && q[j].what.Buy? :: q[i].what.key != q[j].what.key
  }

  lemma {:induction false} FoldedCostsNothing(cat: Catalog, q: Queue, table: nat, author: nat, folded: set<nat>)
    requires forall m <- q :: Active(m, table, author) ==> m.id in folded
    ensures PendingCost(cat, q, table, author, folded) == 0
    decreases |q|
  {
    if q != [] {
      FoldedCostsNothing(cat, q[..|q| - 1], table, author, folded);
    }
  }

  lemma PendingAppend(cat: Catalog, q: Queue, m: QMove, table: nat, author: nat, folded: set<nat>)
    ensures PendingCost(cat, q + [m], table, author, folded) ==
            PendingCost(cat, q, table, author, folded)
            + (if Active(m, table, author) && m.what.Buy? && m.id !in folded then CostOf(cat, m.what.key) else 0)
  {
    assert (q + [m])[..|q|] == q;
  }

  // ------------------------------------------------------------------ crumbs on screen

  /** What is shown of the bowl now: the fold's crumbs, gone soft since the last confirmed move. */
  function Projected(t: Table, now: nat): nat {
    if "tile" in t.charOwned || t.lastConfirmedAt == 0 then t.crumbs
    else Soggy(t.crumbs, SogNum(t), SogHours(t.lastConfirmedAt, now))
  }

  /** A numerator of at most a hundred never adds crumbs. */
  lemma {:induction false} SoggyShrinks(crumbs: nat, num: nat, hours: nat)
    requires num <= 100
    ensures Soggy(crumbs, num, hours) <= crumbs
    decreases hours
  {
    if hours > 0 && crumbs > 0 {
      assert crumbs * num <= crumbs * 100;
      SoggyShrinks(Scale(crumbs, num, 100), num, hours - 1);
    }
  }

  /** Time takes crumbs away, or at least adds none, if and only if the numerator is at most a hundred. */
  lemma DecaysIff(num: nat)
    ensures (forall crumbs: nat, hours: nat :: Soggy(crumbs, num, hours) <= crumbs) <==> num <= 100
  {
    if num <= 100 {
      forall crumbs: nat, hours: nat
        ensures Soggy(crumbs, num, hours) <= crumbs
      {
        SoggyShrinks(crumbs, num, hours);
      }
    } else {
      assert Scale(100, num, 100) == num;
      assert Soggy(num, num, 0) == num;
      assert !(Soggy(100, num, 1) <= 100);
    }
  }

  lemma {:induction false} SoggyMoves(crumbs: nat, num: nat, hours: nat)
    ensures num <= 100 ==> Soggy(crumbs, num, hours) <= crumbs
    ensures num >= 100 ==> Soggy(crumbs, num, hours) >= crumbs
    decreases hours
  {
    if hours > 0 && crumbs > 0 {
      OneHour(crumbs, num);
      SoggyMoves(Scale(crumbs, num, 100), num, hours - 1);
    }
  }

  lemma OneHour(crumbs: nat, num: nat)
    ensures num <= 100 ==> Scale(crumbs, num, 100) <= crumbs
    ensures num >= 100 ==> Scale(crumbs, num, 100) >= crumbs
  {
    assert num <= 100 ==> crumbs * num <= crumbs * 100;
    assert num >= 100 ==> crumbs * num >= crumbs * 100;
  }

  lemma {:induction false} StaysIfFirstHourStays(crumbs: nat, num: nat, hours: nat)
    requires Scale(crumbs, num, 100) == crumbs
    ensures Soggy(crumbs, num, hours) == crumbs
    decreases hours
  {
    if hours > 0 {
      StaysIfFirstHourStays(crumbs, num, hours - 1);
    }
  }

  /** A bowl comes through any number of hours unchanged exactly when it comes through the first one unchanged. */
  lemma UnchangedIff(crumbs: nat, num: nat, hours: nat)
    ensures Soggy(crumbs, num, hours) == crumbs <==> hours == 0 || crumbs == 0 || 100 * crumbs <= crumbs * num < 100 * (crumbs + 1)
  {
    var next := Scale(crumbs, num, 100);
    assert next == crumbs <==> 100 * crumbs <= crumbs * num < 100 * (crumbs + 1);
    if next == crumbs {
      StaysIfFirstHourStays(crumbs, num, hours);
    } else if hours > 0 && crumbs > 0 {
      OneHour(crumbs, num);
      SoggyMoves(next, num, hours - 1);
    }
  }

  /**
   The bowl on screen is the bowl the fold will have once a move lands now, as the
   screen promises, if and only if the tile is not owned or nothing has softened:
   the tile stops the display from softening and not the fold.
   */
  lemma ScreenKeepsPromiseIff(t: Table, r: Reply)
    requires r.height.Some?
    ensures Projected(t, r.createdAt) == Tick(t, r).crumbs <==>
            || "tile" !in t.charOwned || t.lastConfirmedAt == 0 || r.createdAt < t.lastConfirmedAt + 3_600_000
            || t.crumbs == 0 || 100 * t.crumbs <= t.crumbs * SogNum(t) < 100 * (t.crumbs + 1)
  {
    UnchangedIff(t.crumbs, SogNum(t), SogHours(t.lastConfirmedAt, r.createdAt));
  }

  /** With the tile, a hundred crumbs an hour after the last confirmed move show as a hundred and fold as ninety-seven. */
  lemma TileShowsMore()
    ensures var t := FRESH.(crumbs := 100, charOwned := {"tile"}, lastConfirmedAt := 1);
            var r := Reply(1, 1, Some(1), 3_600_001, 1, Oversize);
            Projected(t, r.createdAt) == 100 && Tick(t, r).crumbs == 97
  {
    assert Soggy(97, 97, 0) == 97;
    assert Scale(100, 97, 100) == 97 && Soggy(100, 97, 1) == 97;
  }

  lemma ShownIsAffordable(t: Table, now: nat)
    requires SogNum(t) <= 100
    ensures Projected(t, now) <= t.crumbs
  {
    SoggyShrinks(t.crumbs, SogNum(t), SogHours(t.lastConfirmedAt, now));
  }

  /** With both shelves and the airtight bowl the numerator is 103: after an hour more is shown than the fold has. */
  lemma ShelvedCrumbsGrow(t: Table, now: nat)
    requires t.airtight && t.sogBonus == 4 && t.dipIndex != GUAC && "tile" !in t.charOwned && t.crumbs == 100
    requires t.lastConfirmedAt > 0 && now == t.lastConfirmedAt + HOUR_MS
    ensures SogNum(t) == 103 && Projected(t, now) == 103
  {
    assert SogHours(t.lastConfirmedAt, now) == 1;
    assert Soggy(103, 103, 0) == 103 && Soggy(100, 103, 1) == Soggy(Scale(100, 103, 100), 103, 0);
  }

  // ------------------------------------------------------------------ a burst of buys, folded

  /** The queue entries of a burst: ids and authoring times count up. */
  function Entries(keys: seq<Jar>, table: nat, author: nat, id: nat, ms: nat): Queue {
    if keys == [] then []
    else
      var n := |keys| - 1;
      Entries(keys[..n], table, author, id, ms) + [QMove(id + n, table, author, Buy(keys[n]), ms + n, None)]
  }

  function TotalCost(cat: Catalog, keys: seq<Jar>): nat {
    if keys == [] then 0 else TotalCost(cat, keys[..|keys| - 1]) + CostOf(cat, keys[|keys| - 1])
  }

  ghost function AsSet(keys: seq<Jar>): set<Jar> {
    set k | k in keys
  }

  /** Buys applied one after another: the table they leave. */
  ghost function BuyAll(cat: Catalog, t: Table, keys: seq<Jar>): Table {
    if keys == [] then t else ApplyBuy(cat, BuyAll(cat, t, keys[..|keys| - 1]), keys[|keys| - 1]).0
  }

  /** The fold's own conditions on a buy, apart from the price. */
  predicate Allowed(cat: Catalog, owned: set<Jar>, declined: set<Jar>, key: Jar) {
    key !in declined && InOrder(cat, owned, key)
  }

  /** Every jar of the burst is unrefused and in ladder order behind those before it. */
  ghost predicate Orderly(cat: Catalog, t: Table, keys: seq<Jar>) {
    keys == [] || (var n := |keys| - 1; Orderly(cat, t, keys[..n]) && Allowed(cat, t.owned + AsSet(keys[..n]), t.declined, keys[n]))
  }

  /** The outcome of the last buy of the burst. */
  ghost function LastBuy(cat: Catalog, t: Table, keys: seq<Jar>): Outcome
    requires keys != []
  {
    ApplyBuy(cat, BuyAll(cat, t, keys[..|keys| - 1]), keys[|keys| - 1]).1
  }

  /** One buy, as far as crumbs, jars and refusals go. */
  lemma BuyIs(cat: Catalog, t: Table, key: Jar)
    ensures var u := ApplyBuy(cat, t, key).0;
            u.declined == t.declined && u.crumbs + CostOf(cat, key) >= t.crumbs && t.owned <= u.owned <= t.owned + {key}
    ensures key in cat.jars && key !in t.owned && t.crumbs >= CostOf(cat, key) ==>
              var u := ApplyBuy(cat, t, key).0;
              if Allowed(cat, t.owned, t.declined, key) then u.owned == t.owned + {key} && u.crumbs == t.crumbs - CostOf(cat, key)
              else u == t
  {
  }

  /** Buys only take crumbs for jars they add, and touch no refusal. */
  lemma {:induction false} BuyAllSpends(cat: Catalog, t: Table, keys: seq<Jar>)
    ensures var u := BuyAll(cat, t, keys);
            u.declined == t.declined && u.crumbs + TotalCost(cat, keys) >= t.crumbs && t.owned <= u.owned <= t.owned + AsSet(keys)
    decreases |keys|
  {
    if keys != [] {
      var n := |keys| - 1;
      BuyAllSpends(cat, t, keys[..n]);
      BuyIs(cat, BuyAll(cat, t, keys[..n]), keys[n]);
      AsSetSnoc(keys);
    }
  }

  lemma AsSetSnoc(keys: seq<Jar>)
    requires keys != []
    ensures AsSet(keys) == AsSet(keys[..|keys| - 1]) + {keys[|keys| - 1]}
    ensures Distinct(keys) ==> keys[|keys| - 1] !in AsSet(keys[..|keys| - 1])
  {
    assert keys == keys[..|keys| - 1] + [keys[|keys| - 1]];
  }

  /** With the whole burst affordable, no buy of it is refused for its price. */
  lemma NeverTooDear(cat: Catalog, t: Table, keys: seq<Jar>)
    requires keys != [] && TotalCost(cat, keys) <= t.crumbs
    ensures LastBuy(cat, t, keys) != RejectedCost
  {
    BuyAllSpends(cat, t, keys[..|keys| - 1]);
  }

  /**
   A burst of different unowned jars whose prices fit the crumbs folds entirely
   as bought, and then costs exactly its total, if and only if every jar is
   unrefused and in ladder order behind the ones before it.
   */
  lemma {:induction false} BurstFoldsIff(cat: Catalog, t: Table, keys: seq<Jar>)
    requires Distinct(keys) && TotalCost(cat, keys) <= t.crumbs
    requires forall i | 0 <= i < |keys| :: keys[i] in cat.jars && keys[i] !in t.owned
    ensures BuyAll(cat, t, keys).owned == t.owned + AsSet(keys) <==> Orderly(cat, t, keys)
    ensures Orderly(cat, t, keys) ==> BuyAll(cat, t, keys).crumbs == t.crumbs - TotalCost(cat, keys)
    decreases |keys|
  {
    if keys != [] {
      var n := |keys| - 1;
      BurstFoldsIff(cat, t, keys[..n]);
      BuyAllSpends(cat, t, keys[..n]);
      AsSetSnoc(keys);
      BurstStep(cat, t, BuyAll(cat, t, keys[..n]), AsSet(keys[..n]), keys[n]);
    } else {
      assert AsSet(keys) == {};
    }
  }

  lemma BurstStep(cat: Catalog, t: Table, u: Table, front: set<Jar>, key: Jar)
    requires key in cat.jars && key !in t.owned && key !in front && u.crumbs >= CostOf(cat, key)
    requires u.declined == t.declined && t.owned <= u.owned <= t.owned + front
    ensures ApplyBuy(cat, u, key).0.owned == t.owned + (front + {key}) <==>
            u.owned == t.owned + front && Allowed(cat, u.owned, t.declined, key)
    ensures u.owned == t.owned + front && Allowed(cat, u.owned, t.declined, key) ==>
              ApplyBuy(cat, u, key).0.crumbs == u.crumbs - CostOf(cat, key)
  {
    BuyIs(cat, u, key);
    var v := ApplyBuy(cat, u, key).0;
    if v.owned == t.owned + (front + {key}) {
      assert key in v.owned;
      forall k | k in t.owned + front
        ensures k in u.owned
      {
        assert k in v.owned && k != key;
      }
    }
  }

  /** Names of jars can be written into a body. */
  ghost predicate Writable(cat: Catalog) {
    forall k <- cat.jars :: IsKeyText(k)
  }

  lemma EntriesAppend(keys: seq<Jar>, key: Jar, table: nat, author: nat, id: nat, ms: nat)
    ensures Entries(keys + [key], table, author, id, ms) ==
            Entries(keys, table, author, id, ms) + [QMove(id + |keys|, table, author, Buy(key), ms + |keys|, None)]
  {
    assert (keys + [key])[..|keys|] == keys;
  }

  /** The queue's entries have ids below `next`, no jar twice, and times before `ms`. */
  ghost predicate InPlace(pend: nat -> nat, base: seq<Reply>, q: Queue, table: nat, author: nat, next: nat, ms: nat) {
    Timely(pend, base, q, table, author, next, ms) && BuysDistinct(q, table, author)
  }

  ghost predicate Timely(pend: nat -> nat, base: seq<Reply>, q: Queue, table: nat, author: nat, next: nat, ms: nat) {
    && Clean(pend, base, q, author) && Before(pend, base, q, table, author, ms) && ms > 0
    && forall m <- q :: m.id < next
  }

  /** Entering a buy of a jar not queued yet keeps everything in place. */
  lemma InPlaceAppend(pend: nat -> nat, base: seq<Reply>, q: Queue, m: QMove, table: nat, author: nat)
    requires InPlace(pend, base, q, table, author, m.id, m.ms) && Active(m, table, author)
    requires m.what.Buy? && IsKeyText(m.what.key) && !QueuedBuy(q, table, author, m.what.key)
    ensures InPlace(pend, base, q + [m], table, author, m.id + 1, m.ms + 1)
  {
    CleanAppend(pend, base, q, m, author);
    BeforeAppend(pend, base, q, m, table, author);
    var u := q + [m];
    forall i, j | 0 <= i < j < |u| && Active(u[i], table, author) && Active(u[j], table, author) && u[i].what.Buy? && u[j].what.Buy?
      ensures u[i].what.key != u[j].what.key
    {
      assert u[i] == q[i];
    }
  }

  lemma CleanAppend(pend: nat -> nat, base: seq<Reply>, q: Queue, m: QMove, author: nat)
    requires Clean(pend, base, q, author) && forall o <- q :: o.id < m.id
    ensures Clean(pend, base, q + [m], author)
  {
    var u := q + [m];
    forall i, j | 0 <= i < j < |u|
      ensures u[i].id != u[j].id
    {
      assert u[i] in q;
    }
  }

  lemma BeforeAppend(pend: nat -> nat, base: seq<Reply>, q: Queue, m: QMove, table: nat, author: nat)
    requires Before(pend, base, q, table, author, m.ms) && Active(m, table, author) && Submittable(m) && !m.what.Bank?
    ensures Before(pend, base, q + [m], table, author, m.ms + 1)
  {
    OverlayAppend(pend, q, m, table, author);
    forall r <- base + Overlay(pend, q + [m], table, author) | r.author == author && r.height.None?
      ensures r.ms < m.ms + 1
    {
      if r != Synthetic(pend, m) {
        assert r in base + Overlay(pend, q, table, author);
      }
    }
  }

  class Desk {
    const cat: Catalog
    const table: nat
    const author: nat
    const pend: nat -> nat
    const base: seq<Reply>
    const verified: Verified
    var queue: Queue
    var nextId: nat
    var nextMs: nat
    var folded: set<nat>
    var shown: Fold
    var crumbsNow: nat
    // A fold that has run but is not on screen yet.
    var unrendered: Option<Fold>

    ghost predicate Valid()
      reads this
    {
      InPlace(pend, base, queue, table, author, nextId, nextMs) && Writable(cat) && forall i <- folded :: i < nextId
    }

    /** Every accepted buy that the shown crumbs have not paid for is covered by them. */
    ghost predicate Covered()
      reads this
    {
      PendingCost(cat, queue, table, author, folded) <= crumbsNow
    }

    ghost function FoldOf(): Fold
      reads this
    {
      Shown(cat, verified, pend, base, queue, table, author)
    }

    constructor (cat: Catalog, table: nat, author: nat, pend: nat -> nat, base: seq<Reply>, verified: Verified, ms: nat)
      requires Writable(cat) && Clean(pend, base, [], author) && Before(pend, base, [], table, author, ms) && ms > 0
      ensures Valid() && Covered() && unrendered.None? && queue == [] && nextId == 1 && nextMs == ms && folded == {}
      ensures this.cat == cat && this.table == table && this.author == author && this.pend == pend
      ensures this.base == base && this.verified == verified && shown == START && crumbsNow == 0
    {
      this.cat, this.table, this.author, this.pend, this.base, this.verified := cat, table, author, pend, base, verified;
      queue, nextId, nextMs, folded, shown, crumbsNow, unrendered := [], 1, ms, {}, START, 0, None;
    }

    /** Sums what the last fold has not charged for yet. */
    method PendingBuyCost() returns (sum: nat)
      ensures sum == PendingCost(cat, queue, table, author, folded)
    {
      sum := 0;
      for i := 0 to |queue|
        invariant sum == PendingCost(cat, queue[..i], table, author, folded)
      {
        assert queue[..i + 1][..i] == queue[..i];
        if Active(queue[i], table, author) && queue[i].what.Buy? && queue[i].id !in folded {
          sum := sum + CostOf(cat, queue[i].what.key);
        }
      }
      assert queue[..|queue|] == queue;
    }

    /** A click: accepted exactly when the jar is known, neither owned nor queued, and affordable beside what is pending. */
    method OnBuy(key: Jar) returns (accepted: bool)
      requires Valid() && Covered()
      modifies this`queue, this`nextId, this`nextMs
      ensures Valid() && Covered()
      ensures accepted <==> key in cat.jars && key !in shown.table.owned && !QueuedBuy(old(queue), table, author, key)
                            && PendingCost(cat, old(queue), table, author, folded) + cat.jars[key].cost <= crumbsNow
      ensures queue == if accepted then old(queue) + [QMove(old(nextId), table, author, Buy(key), old(nextMs), None)] else old(queue)
      ensures accepted ==> PendingCost(cat, queue, table, author, folded)
                           == PendingCost(cat, old(queue), table, author, folded) + cat.jars[key].cost
      ensures nextId == if accepted then old(nextId) + 1 else old(nextId)
      ensures nextMs == if accepted then old(nextMs) + 1 else old(nextMs)
    {
      accepted := MayBuy(key);
      if accepted {
        Enter(key);
      }
    }

    /** The checks a click makes. */
    method MayBuy(key: Jar) returns (ok: bool)
      ensures ok <==> key in cat.jars && key !in shown.table.owned && !QueuedBuy(queue, table, author, key)
                      && PendingCost(cat, queue, table, author, folded) + cat.jars[key].cost <= crumbsNow
    {
      if key in shown.table.owned || QueuedBuy(queue, table, author, key) || key !in cat.jars {
        return false;
      }
      var committed := PendingBuyCost();
      return crumbsNow - committed >= cat.jars[key].cost;
    }

    /** The buy joins the queue under the next id and time. */
    method Enter(key: Jar)
      requires Valid() && key in cat.jars && !QueuedBuy(queue, table, author, key)
      modifies this`queue, this`nextId, this`nextMs
      ensures Valid() && nextId == old(nextId) + 1 && nextMs == old(nextMs) + 1
      ensures queue == old(queue) + [QMove(old(nextId), table, author, Buy(key), old(nextMs), None)]
      ensures PendingCost(cat, queue, table, author, folded) == PendingCost(cat, old(queue), table, author, folded) + cat.jars[key].cost
    {
      var m := QMove(nextId, table, author, Buy(key), nextMs, None);
      PendingAppend(cat, queue, m, table, author, folded);
      InPlaceAppend(pend, base, queue, m, table, author);
      queue, nextId, nextMs := queue + [m], nextId + 1, nextMs + 1;
    }

    /** A fold of the base and the whole active queue; nothing it consumed is ever charged again. */
    method FoldNow()
      requires Valid()
      modifies this`folded, this`unrendered
      ensures Valid() && Covered() && unrendered == Some(FoldOf()) == Some(old(FoldOf()))
      ensures PendingCost(cat, queue, table, author, folded) == 0
    {
      var ids: set<nat> := {};
      for i := 0 to |queue|
        invariant forall j | 0 <= j < i :: Active(queue[j], table, author) ==> queue[j].id in ids
        invariant forall x <- ids :: x < nextId
      {
        if Active(queue[i], table, author) {
          ids := ids + {queue[i].id};
        }
      }
      folded := ids;
      FoldedCostsNothing(cat, queue, table, author, folded);
      var replies, v := WithPending(pend, base, verified, queue, table, author);
      unrendered := Some(FoldChips(cat, v, author, replies));
    }

    /** The fold's table reaches the screen, softened to the present. */
    method Render(now: nat)
      requires Valid() && unrendered.Some?
      modifies this`crumbsNow, this`shown, this`unrendered
      ensures Valid() && unrendered.None? && shown == old(unrendered).value && crumbsNow == Projected(shown.table, now)
    {
      shown, unrendered := unrendered.value, None;
      crumbsNow := Projected(shown.table, now);
    }

    /** Nothing more is to be had of `key` in a burst that has taken `taken`: what it lacks, or that its price is out of reach by now. */
    ghost predicate SoldOut(key: Jar, taken: seq<Jar>, q0: Queue)
      reads this
    {
      || key in taken || key !in cat.jars || key in shown.table.owned || QueuedBuy(q0, table, author, key)
      || PendingCost(cat, queue, table, author, folded) + cat.jars[key].cost > crumbsNow
    }

    /** One click of a burst. */
    method Click(key: Jar, taken: seq<Jar>, ghost q0: Queue, ghost id0: nat, ghost ms0: nat) returns (more: seq<Jar>)
      requires Valid() && Covered()
      requires Extended(q0, taken, queue, table, author, id0, ms0, nextId, nextMs)
      modifies this`queue, this`nextId, this`nextMs
      ensures Valid() && Covered() && Extended(q0, more, queue, table, author, id0, ms0, nextId, nextMs)
      ensures more == taken || (more == taken + [key] && key in cat.jars && key !in shown.table.owned)
      ensures SoldOut(key, more, q0)
      ensures PendingCost(cat, queue, table, author, folded) >= PendingCost(cat, old(queue), table, author, folded)
    {
      ghost var q, id, ms := queue, nextId, nextMs;
      QueuedInBurst(q0, taken, key, table, author, id0, ms0);
      var ok := OnBuy(key);
      more := taken;
      if ok {
        Taken(q0, q, taken, key, table, author, id0, ms0, id, ms);
        more := taken + [key];
      }
    }

    /**
     Any burst of clicks between two folds keeps the pending total within the crumbs on
     screen, takes no jar twice, and passes over no jar it could still have paid for.
     */
    method Burst(keys: seq<Jar>) returns (taken: seq<Jar>)
      requires Valid() && Covered()
      modifies this`queue, this`nextId, this`nextMs
      ensures Valid() && Covered() && Distinct(taken)
      ensures queue == old(queue) + Entries(taken, table, author, old(nextId), old(nextMs))
      ensures PendingCost(cat, queue, table, author, folded) == PendingCost(cat, old(queue), table, author, folded) + TotalCost(cat, taken)
      ensures forall k <- taken :: k in keys && k in cat.jars && k !in shown.table.owned
      ensures forall k <- keys :: SoldOut(k, taken, old(queue))
    {
      taken := [];
      ghost var q0, id0, ms0 := queue, nextId, nextMs;
      assert q0 + [] == q0;
      for i := 0 to |keys|
        invariant Valid() && Covered()
        invariant Extended(q0, taken, queue, table, author, id0, ms0, nextId, nextMs)
        invariant forall k <- taken :: k in keys && k in cat.jars && k !in shown.table.owned
        invariant forall j | 0 <= j < i :: SoldOut(keys[j], taken, q0)
      {
        taken := Click(keys[i], taken, q0, id0, ms0);
      }
      TakenAreDistinct(q0, taken, table, author, id0, ms0);
      PendingEntries(cat, q0, taken, table, author, id0, ms0, folded);
    }

    /**
     A fold on screen, a burst of clicks, and the next fold. The second fold is
     the first with the accepted buys applied in turn. If no more is shown than
     the fold has, no accepted buy is refused for its price; all of them are
     bought, for exactly the pending total, if and only if each is unrefused and
     in ladder order, which the click does not check.
     */
    method Spree(now: nat, keys: seq<Jar>) returns (taken: seq<Jar>)
      requires Valid()
      modifies this
      ensures Valid() && unrendered.Some? && unrendered.value.table == BuyAll(cat, shown.table, taken)
      ensures TotalCost(cat, taken) <= crumbsNow == Projected(shown.table, now)
      ensures forall k <- keys :: k in taken || k !in cat.jars || k in shown.table.owned || QueuedBuy(old(queue), table, author, k)
                                  || TotalCost(cat, taken) + cat.jars[k].cost > crumbsNow
      ensures crumbsNow <= shown.table.crumbs ==> forall i | 0 < i <= |taken| :: LastBuy(cat, shown.table, taken[..i]) != RejectedCost
      ensures crumbsNow <= shown.table.crumbs ==>
                (unrendered.value.table.owned == shown.table.owned + AsSet(taken) <==> Orderly(cat, shown.table, taken))
      ensures crumbsNow <= shown.table.crumbs && Orderly(cat, shown.table, taken) ==>
                unrendered.value.table.crumbs == shown.table.crumbs - TotalCost(cat, taken)
    {
      FoldNow();
      Render(now);
      ghost var q0, id0, ms0 := queue, nextId, nextMs;
      taken := Burst(keys);
      assert forall k <- taken :: IsKeyText(k);
      BurstShown(cat, verified, pend, base, q0, taken, table, author, id0, ms0);
      assert FoldOf().table == BuyAll(cat, shown.table, taken);
      FoldNow();
      SpreeOutcome(cat, shown.table, taken, crumbsNow);
    }
  }

  /** What a burst within the shown crumbs comes to. */
  lemma SpreeOutcome(cat: Catalog, t: Table, taken: seq<Jar>, crumbsNow: nat)
    requires Distinct(taken) && TotalCost(cat, taken) <= crumbsNow && forall k <- taken :: k in cat.jars && k !in t.owned
    ensures crumbsNow <= t.crumbs ==> forall i | 0 < i <= |taken| :: LastBuy(cat, t, taken[..i]) != RejectedCost
    ensures crumbsNow <= t.crumbs ==> (BuyAll(cat, t, taken).owned == t.owned + AsSet(taken) <==> Orderly(cat, t, taken))
    ensures crumbsNow <= t.crumbs && Orderly(cat, t, taken) ==> BuyAll(cat, t, taken).crumbs == t.crumbs - TotalCost(cat, taken)
  {
    if crumbsNow <= t.crumbs {
      BurstFoldsIff(cat, t, taken);
      forall i | 0 < i <= |taken|
        ensures LastBuy(cat, t, taken[..i]) != RejectedCost
      {
        PrefixCosts(cat, taken, i);
        NeverTooDear(cat, t, taken[..i]);
      }
    }
  }

  /** `q` is `q0` with the buys of a burst entered, and the counters have moved on by as many. */
  ghost predicate Extended(q0: Queue, taken: seq<Jar>, q: Queue, table: nat, author: nat, id0: nat, ms0: nat, id: nat, ms: nat) {
    q == q0 + Entries(taken, table, author, id0, ms0) && id == id0 + |taken| && ms == ms0 + |taken|
  }

  /** One more accepted click. */
  lemma Taken(q0: Queue, q: Queue, taken: seq<Jar>, key: Jar, table: nat, author: nat, id0: nat, ms0: nat, id: nat, ms: nat)
    requires Extended(q0, taken, q, table, author, id0, ms0, id, ms)
    ensures Extended(q0, taken + [key], q + [QMove(id, table, author, Buy(key), ms, None)], table, author, id0, ms0, id + 1, ms + 1)
  {
    EntriesAppend(taken, key, table, author, id0, ms0);
  }

  /** A burst's pending cost is the total of its prices. */
  lemma {:induction false} PendingEntries(cat: Catalog, q: Queue, keys: seq<Jar>, table: nat, author: nat, id: nat, ms: nat, folded: set<nat>)
    requires forall i <- folded :: i < id
    ensures PendingCost(cat, q + Entries(keys, table, author, id, ms), table, author, folded) ==
            PendingCost(cat, q, table, author, folded) + TotalCost(cat, keys)
    decreases |keys|
  {
    if keys == [] {
      assert q + Entries(keys, table, author, id, ms) == q;
    } else {
      var n := |keys| - 1;
      PendingEntries(cat, q, keys[..n], table, author, id, ms, folded);
      EntriesSnoc(q, keys, table, author, id, ms);
      PendingAppend(cat, q + Entries(keys[..n], table, author, id, ms), QMove(id + n, table, author, Buy(keys[n]), ms + n, None),
                    table, author, folded);
    }
  }

  lemma {:induction false} EntriesAre(keys: seq<Jar>, table: nat, author: nat, id: nat, ms: nat)
    ensures var es := Entries(keys, table, author, id, ms);
            |es| == |keys| && forall i | 0 <= i < |keys| :: Active(es[i], table, author) && es[i].what == Buy(keys[i])
    decreases |keys|
  {
    if keys != [] {
      EntriesAre(keys[..|keys| - 1], table, author, id, ms);
    }
  }

  /** A jar queued after a burst was queued before it or taken in it. */
  lemma QueuedInBurst(q0: Queue, taken: seq<Jar>, key: Jar, table: nat, author: nat, id: nat, ms: nat)
    ensures QueuedBuy(q0 + Entries(taken, table, author, id, ms), table, author, key) ==> QueuedBuy(q0, table, author, key) || key in taken
  {
    EntriesAre(taken, table, author, id, ms);
    var q := q0 + Entries(taken, table, author, id, ms);
    if i :| 0 <= i < |q| && Active(q[i], table, author) && q[i].what == Buy(key) {
      if i >= |q0| {
        assert q[i].what == Buy(taken[i - |q0|]);
      }
    }
  }

  lemma TakenAreDistinct(q0: Queue, taken: seq<Jar>, table: nat, author: nat, id: nat, ms: nat)
    requires BuysDistinct(q0 + Entries(taken, table, author, id, ms), table, author)
    ensures Distinct(taken)
  {
    EntriesAre(taken, table, author, id, ms);
    var q := q0 + Entries(taken, table, author, id, ms);
    forall i, j | 0 <= i < j < |taken|
      ensures taken[i] != taken[j]
    {
      assert q[|q0| + i].what == Buy(taken[i]) && q[|q0| + j].what == Buy(taken[j]);
    }
  }

  lemma {:induction false} PrefixCosts(cat: Catalog, keys: seq<Jar>, i: nat)
    requires i <= |keys|
    ensures TotalCost(cat, keys[..i]) <= TotalCost(cat, keys)
    decreases |keys|
  {
    if i < |keys| {
      var n := |keys| - 1;
      assert keys[..n][..i] == keys[..i];
      PrefixCosts(cat, keys[..n], i);
    } else {
      assert keys[..i] == keys;
    }
  }

  function Entered(q: Queue, key: Jar, table: nat, author: nat, id: nat, ms: nat): Queue {
    q + [QMove(id, table, author, Buy(key), ms, None)]
  }

  lemma EntriesSnoc(q: Queue, keys: seq<Jar>, table: nat, author: nat, id: nat, ms: nat)
    requires keys != []
    ensures var n := |keys| - 1;
            q + Entries(keys, table, author, id, ms) ==
            Entered(q + Entries(keys[..n], table, author, id, ms), keys[n], table, author, id + n, ms + n)
  {
  }

  /** Entering one buy keeps `ok` and applies the buy to what is shown. */
  ghost predicate StepsOn(cat: Catalog, ok: (Queue, nat, nat) -> bool, show: Queue -> Table, table: nat, author: nat) {
    forall u: Queue, key, id: nat, ms: nat | IsKeyText(key) && ok(u, id, ms) ::
      var w := Entered(u, key, table, author, id, ms);
      ok(w, id + 1, ms + 1) && show(w) == ApplyBuy(cat, show(u), key).0
  }

  lemma {:induction false} BurstSteps(cat: Catalog, ok: (Queue, nat, nat) -> bool, show: Queue -> Table, q: Queue, keys: seq<Jar>,
                                      table: nat, author: nat, id: nat, ms: nat)
    requires StepsOn(cat, ok, show, table, author) && ok(q, id, ms) && forall k <- keys :: IsKeyText(k)
    ensures var u := q + Entries(keys, table, author, id, ms);
            ok(u, id + |keys|, ms + |keys|) && show(u) == BuyAll(cat, show(q), keys)
    decreases |keys|
  {
    if keys == [] {
      assert q + Entries(keys, table, author, id, ms) == q;
    } else {
      BurstSteps(cat, ok, show, q, keys[..|keys| - 1], table, author, id, ms);
      EntriesSnoc(q, keys, table, author, id, ms);
    }
  }

  /** The next fold after a burst is the last one with the burst's buys applied in turn. */
  lemma BurstShown(cat: Catalog, v: Verified, pend: nat -> nat, base: seq<Reply>, q: Queue, keys: seq<Jar>,
                   table: nat, author: nat, id: nat, ms: nat)
    requires Timely(pend, base, q, table, author, id, ms) && forall k <- keys :: IsKeyText(k)
    ensures Shown(cat, v, pend, base, q + Entries(keys, table, author, id, ms), table, author).table ==
            BuyAll(cat, Shown(cat, v, pend, base, q, table, author).table, keys)
  {
    var ok := (u: Queue, i: nat, at: nat) => Timely(pend, base, u, table, author, i, at);
    var show := (u: Queue) => Shown(cat, v, pend, base, u, table, author).table;
    BurstStepsOn(cat, v, pend, base, table, author, ok, show);
    BurstSteps(cat, ok, show, q, keys, table, author, id, ms);
  }

  lemma BurstStepsOn(cat: Catalog, v: Verified, pend: nat -> nat, base: seq<Reply>, table: nat, author: nat,
                     ok: (Queue, nat, nat) -> bool, show: Queue -> Table)
    requires forall u: Queue, i: nat, at: nat :: ok(u, i, at) <==> Timely(pend, base, u, table, author, i, at)
    requires forall u: Queue :: show(u) == Shown(cat, v, pend, base, u, table, author).table
    ensures StepsOn(cat, ok, show, table, author)
  {
    forall u: Queue, key, id: nat, ms: nat | IsKeyText(key) && ok(u, id, ms)
      ensures var w := Entered(u, key, table, author, id, ms);
              ok(w, id + 1, ms + 1) && show(w) == ApplyBuy(cat, show(u), key).0
    {
      BurstShownStep(cat, v, pend, base, u, key, table, author, id, ms);
    }
  }

  lemma BurstShownStep(cat: Catalog, v: Verified, pend: nat -> nat, base: seq<Reply>, u: Queue, key: Jar, table: nat, author: nat,
                       id: nat, ms: nat)
    requires Timely(pend, base, u, table, author, id, ms) && IsKeyText(key)
    ensures var w := Entered(u, key, table, author, id, ms);
            && Timely(pend, base, w, table, author, id + 1, ms + 1)
            && Shown(cat, v, pend, base, w, table, author).table ==
               ApplyBuy(cat, Shown(cat, v, pend, base, u, table, author).table, key).0
  {
    var m := QMove(id, table, author, Buy(key), ms, None);
    CleanAppend(pend, base, u, m, author);
    BeforeAppend(pend, base, u, m, table, author);
    ShownBuy(cat, v, pend, base, u, m, table, author);
  }

  /**
   A click between a fold and its render is checked against the crumbs of the
   fold before: once rendered, the pending total is covered exactly when the
   price also fits what is then shown.
   */
  method ClickBeforeRender(desk: Desk, now: nat, key: Jar) returns (accepted: bool)
    requires desk.Valid()
    modifies desk
    ensures desk.Valid() && desk.shown == old(desk.FoldOf()) && desk.crumbsNow == Projected(desk.shown.table, now)
    ensures accepted <==> key in desk.cat.jars && key !in old(desk.shown).table.owned
                          && !QueuedBuy(old(desk.queue), desk.table, desk.author, key)
                          && desk.cat.jars[key].cost <= old(desk.crumbsNow)
    ensures accepted ==> (desk.Covered() <==> desk.cat.jars[key].cost <= desk.crumbsNow)
    ensures !accepted ==> desk.Covered()
  {
    accepted := FoldThenClick(desk, key);
    desk.Render(now);
  }

  /** The click itself: the fold has run, and the screen still shows the one before. */
  method FoldThenClick(desk: Desk, key: Jar) returns (accepted: bool)
    requires desk.Valid()
    modifies desk
    ensures desk.Valid() && desk.unrendered == Some(old(desk.FoldOf()))
    ensures accepted <==> key in desk.cat.jars && key !in old(desk.shown).table.owned
                          && !QueuedBuy(old(desk.queue), desk.table, desk.author, key)
                          && desk.cat.jars[key].cost <= old(desk.crumbsNow)
    ensures PendingCost(desk.cat, desk.queue, desk.table, desk.author, desk.folded) == if accepted then desk.cat.jars[key].cost else 0
  {
    desk.FoldNow();
    accepted := ClickOnFolded(desk, key);
  }

  /** With nothing pending a click is checked against its own price alone. */
  method ClickOnFolded(desk: Desk, key: Jar) returns (accepted: bool)
    requires desk.Valid() && desk.Covered() && PendingCost(desk.cat, desk.queue, desk.table, desk.author, desk.folded) == 0
    modifies desk`queue, desk`nextId, desk`nextMs
    ensures desk.Valid()
    ensures accepted <==> key in desk.cat.jars && key !in desk.shown.table.owned
                          && !QueuedBuy(old(desk.queue), desk.table, desk.author, key)
                          && desk.cat.jars[key].cost <= desk.crumbsNow
    ensures PendingCost(desk.cat, desk.queue, desk.table, desk.author, desk.folded) == if accepted then desk.cat.jars[key].cost else 0
  {
    accepted := desk.OnBuy(key);
  }

  const TWO_JARS: Catalog :=
    Catalog(map["knob" := Upgrade(10, None, None, None, false, None, None, 0),
                "lid" := Upgrade(10, None, None, None, false, None, None, 0)], [])
  const TEN_CRUMBS: Reply := Reply(1, 0, Some(1), 5, 1, Dip(10))

  lemma TenCrumbs(cat: Catalog, pend: nat -> nat)
    ensures var t := Shown(cat, map[], pend, [TEN_CRUMBS], [], 1, 1).table;
            t.crumbs == 10 && t.owned == {} && t.declined == {} && Projected(t, 5) == 10
  {
    assert [TEN_CRUMBS] + Overlay(pend, [], 1, 1) == [TEN_CRUMBS];
    LoneReply(TEN_CRUMBS, 1);
    DipOfTen(cat);
    SameMoment(FoldStep(cat, map[], START, TEN_CRUMBS).table);
    var f := FoldStep(cat, map[], START, TEN_CRUMBS);
    assert [TEN_CRUMBS][1..] == [] && FoldAll(cat, map[], f, []) == f;
  }

  lemma DipOfTen(cat: Catalog)
    ensures var t := FoldStep(cat, map[], START, TEN_CRUMBS).table;
            t.crumbs == 10 && t.owned == {} && t.declined == {} && t.lastConfirmedAt == 5
  {
    var t := Tick(START.table, TEN_CRUMBS);
    assert t == FRESH.(lastConfirmedAt := 5);
    assert ApplyDip(t, 10, true, 5).crumbs == 10;
  }

  lemma SameMoment(t: Table)
    ensures Projected(t, t.lastConfirmedAt) == t.crumbs
  {
    assert SogHours(t.lastConfirmedAt, t.lastConfirmedAt) == 0;
  }

  /** The knob takes all ten crumbs. */
  lemma KnobTakesAll(pend: nat -> nat, m: QMove)
    requires Clean(pend, [TEN_CRUMBS], [m], 1) && m == QMove(1, 1, 1, Buy("knob"), 10, None)
    ensures var t := Shown(TWO_JARS, map[], pend, [TEN_CRUMBS], [m], 1, 1).table; t.crumbs == 0 && Projected(t, 5) == 0
  {
    TenCrumbs(TWO_JARS, pend);
    assert [] + [m] == [m] && IsKeyText("knob");
    ShownBuy(TWO_JARS, map[], pend, [TEN_CRUMBS], [], m, 1, 1);
    KnobCostsTen(Shown(TWO_JARS, map[], pend, [TEN_CRUMBS], [], 1, 1).table);
  }

  lemma KnobCostsTen(t: Table)
    requires t.crumbs == 10 && t.owned == {} && t.declined == {}
    ensures var u := ApplyBuy(TWO_JARS, t, "knob").0; u.crumbs == 0 && Projected(u, 5) == 0
  {
    assert "knob" in TWO_JARS.jars && TWO_JARS.jars["knob"].cost == 10 && ChainOf(TWO_JARS.chains, "knob") == None;
  }

  lemma TwoJars()
    ensures Writable(TWO_JARS) && "knob" in TWO_JARS.jars && "lid" in TWO_JARS.jars
    ensures TWO_JARS.jars["knob"].cost == 10 && TWO_JARS.jars["lid"].cost == 10
  {
    assert IsKeyText("knob") && IsKeyText("lid");
  }

  /** A desk that shows ten crumbs and an empty queue. */
  method TenCrumbDesk(cat: Catalog) returns (desk: Desk)
    requires Writable(cat)
    ensures fresh(desk) && desk.Valid() && desk.Covered() && desk.cat == cat && desk.table == 1 && desk.author == 1
    ensures desk.queue == [] && desk.nextId == 1 && desk.nextMs == 10 && desk.base == [TEN_CRUMBS] && desk.verified == map[]
    ensures desk.crumbsNow == 10 && desk.shown.table.crumbs == 10 && desk.shown.table.owned == {} && desk.shown.table.declined == {}
  {
    var pend := (id: nat) => 2 * id + 1;
    desk := new Desk(cat, 1, 1, pend, [TEN_CRUMBS], map[], 10);
    desk.FoldNow();
    TenCrumbs(cat, pend);
    desk.Render(5);
  }

  /** Ten crumbs, two ten-crumb jars: the second click falls between the fold and its render and cannot be paid for. */
  method Overspend() returns (desk: Desk, accepted: bool)
    ensures accepted && desk.Valid() && !desk.Covered()
  {
    TwoJars();
    desk := TenCrumbDesk(TWO_JARS);
    var first := desk.OnBuy("knob");
    accepted := ClickTheLid(desk);
  }

  /** With the knob queued the next fold has nothing left, and the screen still shows ten. */
  method ClickTheLid(desk: Desk) returns (accepted: bool)
    requires desk.Valid() && desk.cat == TWO_JARS && desk.table == 1 && desk.author == 1
    requires desk.queue == [QMove(1, 1, 1, Buy("knob"), 10, None)] && desk.crumbsNow == 10 && desk.shown.table.owned == {}
    requires desk.base == [TEN_CRUMBS] && desk.verified == map[]
    modifies desk
    ensures accepted && desk.Valid() && !desk.Covered()
  {
    TwoJars();
    KnobTakesAll(desk.pend, desk.queue[0]);
    assert !QueuedBuy(desk.queue, 1, 1, "lid");
    accepted := ClickBeforeRender(desk, 5, "lid");
  }

  const TWO_RUNGS: Catalog := TWO_JARS.(chains := [["knob", "lid"]])

  lemma TwoRungs()
    ensures Writable(TWO_RUNGS) && "lid" in TWO_RUNGS.jars && TWO_RUNGS.jars["lid"].cost == 10 && !InOrder(TWO_RUNGS, {}, "lid")
  {
    assert IsKeyText("knob") && IsKeyText("lid");
    assert ["knob", "lid"][1] == "lid" && ChainOf(TWO_RUNGS.chains, "lid") == Some(["knob", "lid"]);
  }

  lemma LidIsRejected(pend: nat -> nat, m: QMove)
    requires Clean(pend, [TEN_CRUMBS], [m], 1) && m == QMove(1, 1, 1, Buy("lid"), 10, None)
    ensures Shown(TWO_RUNGS, map[], pend, [TEN_CRUMBS], [m], 1, 1).table == Shown(TWO_RUNGS, map[], pend, [TEN_CRUMBS], [], 1, 1).table
  {
    TenCrumbs(TWO_RUNGS, pend);
    TwoRungs();
    assert [] + [m] == [m];
    ShownBuy(TWO_RUNGS, map[], pend, [TEN_CRUMBS], [], m, 1, 1);
  }

  /** Ten crumbs and a ten-crumb upper rung: the click is accepted, covered and affordable, and the fold rejects the buy. */
  method RejectedAnyway() returns (desk: Desk, accepted: bool)
    ensures accepted && desk.Valid() && desk.Covered() && QueuedBuy(desk.queue, desk.table, desk.author, "lid")
    ensures desk.unrendered.Some? && desk.unrendered.value.table.owned == {} && desk.unrendered.value.table.crumbs == 10
  {
    TwoRungs();
    desk := TenCrumbDesk(TWO_RUNGS);
    accepted := desk.OnBuy("lid");
    assert accepted;
    LidIsRejected(desk.pend, desk.queue[0]);
    TenCrumbs(TWO_RUNGS, desk.pend);
    assert desk.queue == [QMove(1, 1, 1, Buy("lid"), 10, None)];
    desk.FoldNow();
  }
}

/**
 Laying out the shelf (chips-client/src/Tunnel.tsx, shelfStalls): which jars are
 open, and whose stall each one stands on.
 */
module Shelf {
  import opened Wrappers
  import opened ChipsEngine
  import opened ChipsLadder

  datatype Vendor = Vendor(id: nat, layer: nat)

  datatype Stall = Stall(vendor: Vendor, jars: seq<Jar>)

  type Crew = map<Jar, Vendor>

  /** One vendor per id. */
  ghost predicate OneVendorPerId(crew: Crew) {
    forall j, k | j in crew && k in crew && crew[j].id == crew[k].id :: crew[j] == crew[k]
  }

  predicate Available(crew: Crew, dipIndex: nat, key: Jar) {
    key in crew && crew[key].layer <= dipIndex
  }

  /** Every rung is in the catalogue, and `order` lists the catalogue once. */
  ghost predicate Listed(cat: Catalog, order: seq<Jar>) {
    && (forall k :: k in order <==> k in cat.jars)
    && (forall i, j | 0 <= i < j < |order| :: order[i] != order[j])
    && (forall c, i | 0 <= c < |cat.chains| && 0 <= i < |cat.chains[c]| :: cat.chains[c][i] in cat.jars)
  }

  ghost predicate IsChained(cat: Catalog, key: Jar, n: nat) {
    exists c | 0 <= c < n && c < |cat.chains| :: key in cat.chains[c]
  }

  ghost predicate Open(cat: Catalog, owned: set<Jar>, declined: set<Jar>, crew: Crew, dipIndex: nat, key: Jar) {
    OnShelf(cat, owned, declined, k => Available(crew, dipIndex, k), key)
  }

  lemma ChainedIff(cat: Catalog, key: Jar)
    ensures IsChained(cat, key, |cat.chains|) <==> ChainOf(cat.chains, key).Some?
  {
    ChainOfHasKey(cat.chains, key);
  }

  /** For a rung of ladder `c`, being open is being that ladder's next rung, not refused and available. */
  lemma OpenAt(cat: Catalog, owned: set<Jar>, declined: set<Jar>, crew: Crew, dipIndex: nat, c: nat, key: Jar)
    requires WellFormed(cat) && c < |cat.chains| && key in cat.chains[c]
    ensures Open(cat, owned, declined, crew, dipIndex, key) <==>
            key in cat.jars && key !in declined && Available(crew, dipIndex, key) && NextRung(cat.chains[c], owned) == Some(key)
  {
    forall d | 0 <= d < c
      ensures key !in cat.chains[d]
    {
      assert key in cat.chains[c];
    }
    ChainOfRung(cat.chains, c, key);
  }

  /** No jar is on sale before its vendor's layer has been reached, and reaching a deeper one takes none away. */
  lemma OpenWithinReach(cat: Catalog, owned: set<Jar>, declined: set<Jar>, crew: Crew, dipIndex: nat, deeper: nat, key: Jar)
    requires Open(cat, owned, declined, crew, dipIndex, key)
    ensures key in crew && crew[key].layer <= dipIndex && key !in declined
    ensures crew[key].layer <= deeper <==> Open(cat, owned, declined, crew, deeper, key)
  {
  }

  /** The jars on sale: each open one once, and nothing else. */
  method OpenJars(cat: Catalog, order: seq<Jar>, owned: set<Jar>, declined: set<Jar>, crew: Crew, dipIndex: nat)
    returns (open: seq<Jar>)
    requires WellFormed(cat) && Listed(cat, order)
    ensures Distinct(open)
    ensures forall k :: k in open <==> Open(cat, owned, declined, crew, dipIndex, k)
  {
    open := [];
    var chained: set<Jar> := {};
    for c := 0 to |cat.chains|
      invariant forall k :: k in chained <==> IsChained(cat, k, c)
      invariant Distinct(open)
      invariant forall k :: k in open <==> IsChained(cat, k, c) && Open(cat, owned, declined, crew, dipIndex, k)
    {
      var chain := cat.chains[c];
      chained := chained + (set k | k in chain);
      var next := NextRung(chain, owned);
      NextRungIsUnowned(chain, owned);
      forall k <- chain
        ensures Open(cat, owned, declined, crew, dipIndex, k) <==>
                k !in declined && Available(crew, dipIndex, k) && next == Some(k)
      {
        OpenAt(cat, owned, declined, crew, dipIndex, c, k);
      }
      if next.Some? && next.value !in declined && Available(crew, dipIndex, next.value) {
        assert next.value in cat.chains[c];
        open := open + [next.value];
      }
    }
    for i := 0 to |order|
      invariant Distinct(open)
      invariant forall k :: k in open <==> (IsChained(cat, k, |cat.chains|) || k in order[..i]) && Open(cat, owned, declined, crew, dipIndex, k)
    {
      var key := order[i];
      assert order[..i + 1] == order[..i] + [key];
      ChainedIff(cat, key);
      if key !in chained && key !in owned && key !in declined && Available(crew, dipIndex, key) {
        open := open + [key];
      }
    }
    assert order[..|order|] == order;
  }

  // ------------------------------------------------------------------ stalls

  /** The stalls partition `jars` by vendor: each jar stands once, on its own vendor's stall, and no stall is empty. */
  ghost predicate Partition(crew: Crew, jars: seq<Jar>, stalls: seq<Stall>) {
    && (forall s | 0 <= s < |stalls| :: stalls[s].jars != [] && Distinct(stalls[s].jars))
    && (forall s, k | 0 <= s < |stalls| && k in stalls[s].jars :: k in jars && k in crew && crew[k] == stalls[s].vendor)
    && (forall k <- jars :: k in crew ==> exists s :: 0 <= s < |stalls| && k in stalls[s].jars)
    && (forall s, t | 0 <= s < t < |stalls| :: stalls[s].vendor.id != stalls[t].vendor.id)
  }

  method StallOf(stalls: seq<Stall>, id: nat) returns (s: nat)
    ensures s <= |stalls| && (s < |stalls| ==> stalls[s].vendor.id == id)
    ensures forall t | 0 <= t < s :: stalls[t].vendor.id != id
  {
    s := 0;
    while s < |stalls| && stalls[s].vendor.id != id
      invariant s <= |stalls| && forall t | 0 <= t < s :: stalls[t].vendor.id != id
    {
      s := s + 1;
    }
  }

  lemma PlaceOnOld(crew: Crew, jars: seq<Jar>, stalls: seq<Stall>, key: Jar, s: nat)
    requires OneVendorPerId(crew) && Partition(crew, jars, stalls) && key !in jars && key in crew
    requires s < |stalls| && stalls[s].vendor.id == crew[key].id
    ensures Partition(crew, jars + [key], stalls[s := stalls[s].(jars := stalls[s].jars + [key])])
  {
    var next := stalls[s := stalls[s].(jars := stalls[s].jars + [key])];
    var first := stalls[s].jars[0];
    assert first in stalls[s].jars;
    assert crew[first] == stalls[s].vendor && crew[first].id == crew[key].id;
    forall k <- jars + [key] | k in crew
      ensures exists t :: 0 <= t < |next| && k in next[t].jars
    {
      if k == key {
        assert k in next[s].jars;
      } else {
        var t :| 0 <= t < |stalls| && k in stalls[t].jars;
        assert k in next[t].jars;
      }
    }
  }

  lemma PlaceOnNew(crew: Crew, jars: seq<Jar>, stalls: seq<Stall>, key: Jar)
    requires Partition(crew, jars, stalls) && key !in jars && key in crew
    requires forall t | 0 <= t < |stalls| :: stalls[t].vendor.id != crew[key].id
    ensures Partition(crew, jars + [key], stalls + [Stall(crew[key], [key])])
  {
    var next := stalls + [Stall(crew[key], [key])];
    forall k <- jars + [key] | k in crew
      ensures exists t :: 0 <= t < |next| && k in next[t].jars
    {
      if k == key {
        assert k in next[|stalls|].jars;
      } else {
        var t :| 0 <= t < |stalls| && k in stalls[t].jars;
        assert k in next[t].jars;
      }
    }
  }

  /** The jars of one vendor, in the order they stand. */
  ghost function Sold(crew: Crew, jars: seq<Jar>, vendor: nat): seq<Jar> {
    if jars == [] then []
    else
      var n := |jars| - 1;
      if jars[n] in crew && crew[jars[n]].id == vendor then Sold(crew, jars[..n], vendor) + [jars[n]]
      else Sold(crew, jars[..n], vendor)
  }

  ghost predicate InTurn(crew: Crew, jars: seq<Jar>, stalls: seq<Stall>) {
    forall s | 0 <= s < |stalls| :: stalls[s].jars == Sold(crew, jars, stalls[s].vendor.id)
  }

  lemma SoldAppend(crew: Crew, jars: seq<Jar>, key: Jar, vendor: nat)
    ensures Sold(crew, jars + [key], vendor) ==
            Sold(crew, jars, vendor) + (if key in crew && crew[key].id == vendor then [key] else [])
  {
    assert (jars + [key])[..|jars|] == jars;
  }

  lemma {:induction false} NoneSold(crew: Crew, jars: seq<Jar>, vendor: nat)
    requires forall k <- jars :: k in crew ==> crew[k].id != vendor
    ensures Sold(crew, jars, vendor) == []
    decreases |jars|
  {
    if jars != [] {
      NoneSold(crew, jars[..|jars| - 1], vendor);
    }
  }

  /** The next jar joins the one stall of its vendor, or opens it. */
  lemma TurnOn(crew: Crew, jars: seq<Jar>, stalls: seq<Stall>, key: Jar, s: nat)
    requires Partition(crew, jars, stalls) && InTurn(crew, jars, stalls) && s <= |stalls|
    requires key in crew ==> if s < |stalls| then stalls[s].vendor.id == crew[key].id else
                             forall t | 0 <= t < |stalls| :: stalls[t].vendor.id != crew[key].id
    ensures InTurn(crew, jars + [key], if key !in crew then stalls
                                       else if s < |stalls| then stalls[s := stalls[s].(jars := stalls[s].jars + [key])]
                                       else stalls + [Stall(crew[key], [key])])
  {
    forall t | 0 <= t < |stalls|
      ensures Sold(crew, jars + [key], stalls[t].vendor.id) ==
              stalls[t].jars + (if key in crew && crew[key].id == stalls[t].vendor.id then [key] else [])
    {
      SoldAppend(crew, jars, key, stalls[t].vendor.id);
    }
    if key in crew && s == |stalls| {
      NoneSold(crew, jars, crew[key].id);
      SoldAppend(crew, jars, key, crew[key].id);
    }
  }

  /** The next jar of the row is put on its vendor's stall, opened for it if need be; a jar without a vendor stands nowhere. */
  method Place(crew: Crew, ghost jars: seq<Jar>, stalls: seq<Stall>, key: Jar) returns (next: seq<Stall>)
    requires OneVendorPerId(crew) && Partition(crew, jars, stalls) && InTurn(crew, jars, stalls) && key !in jars
    ensures Partition(crew, jars + [key], next) && InTurn(crew, jars + [key], next)
  {
    if key !in crew {
      PlaceNowhere(crew, jars, stalls, key);
      return stalls;
    }
    var s := StallOf(stalls, crew[key].id);
    TurnOn(crew, jars, stalls, key, s);
    if s < |stalls| {
      PlaceOnOld(crew, jars, stalls, key, s);
      next := stalls[s := stalls[s].(jars := stalls[s].jars + [key])];
    } else {
      PlaceOnNew(crew, jars, stalls, key);
      next := stalls + [Stall(crew[key], [key])];
    }
  }

  lemma PlaceNowhere(crew: Crew, jars: seq<Jar>, stalls: seq<Stall>, key: Jar)
    requires Partition(crew, jars, stalls) && InTurn(crew, jars, stalls) && key !in crew
    ensures Partition(crew, jars + [key], stalls) && InTurn(crew, jars + [key], stalls)
  {
    TurnOn(crew, jars, stalls, key, 0);
  }

  /** Every jar with a vendor stands in that vendor's one stall, in the order of the row. */
  method Group(crew: Crew, jars: seq<Jar>) returns (stalls: seq<Stall>)
    requires OneVendorPerId(crew) && Distinct(jars)
    ensures Partition(crew, jars, stalls) && InTurn(crew, jars, stalls)
  {
    stalls := [];
    for i := 0 to |jars|
      invariant Partition(crew, jars[..i], stalls) && InTurn(crew, jars[..i], stalls)
    {
      assert jars[..i + 1] == jars[..i] + [jars[i]];
      stalls := Place(crew, jars[..i], stalls, jars[i]);
    }
    assert jars[..|jars|] == jars;
  }

  function InsertStall(s: Stall, xs: seq<Stall>): seq<Stall> {
    if xs == [] then [s]
    else if s.vendor.layer < xs[0].vendor.layer then [s] + xs
    else [xs[0]] + InsertStall(s, xs[1..])
  }

  function ByLayer(stalls: seq<Stall>): seq<Stall> {
    if stalls == [] then [] else InsertStall(stalls[|stalls| - 1], ByLayer(stalls[..|stalls| - 1]))
  }

  ghost predicate Layered(xs: seq<Stall>) {
    forall i, j | 0 <= i < j < |xs| :: xs[i].vendor.layer <= xs[j].vendor.layer
  }

  lemma {:induction false} InsertIsLayered(s: Stall, xs: seq<Stall>)
    requires Layered(xs)
    ensures Layered(InsertStall(s, xs))
    decreases |xs|
  {
    if xs != [] && s.vendor.layer >= xs[0].vendor.layer {
      InsertIsLayered(s, xs[1..]);
      InsertAdds(s, xs[1..]);
      assert xs == [xs[0]] + xs[1..];
      var rest := InsertStall(s, xs[1..]);
      forall i | 0 <= i < |rest|
        ensures xs[0].vendor.layer <= rest[i].vendor.layer
      {
        assert rest[i] in multiset(rest);
      }
    }
  }

  lemma {:induction false} InsertAdds(s: Stall, xs: seq<Stall>)
    ensures multiset(InsertStall(s, xs)) == multiset(xs) + multiset{s}
    decreases |xs|
  {
    if xs != [] && s.vendor.layer >= xs[0].vendor.layer {
      InsertAdds(s, xs[1..]);
      assert xs == [xs[0]] + xs[1..];
    }
  }

  /** The stalls come ordered by recruitment depth, none lost or added. */
  lemma {:induction false} ByLayerSorts(stalls: seq<Stall>)
    ensures Layered(ByLayer(stalls)) && multiset(ByLayer(stalls)) == multiset(stalls)
    decreases |stalls|
  {
    if stalls != [] {
      var n := |stalls| - 1;
      ByLayerSorts(stalls[..n]);
      InsertIsLayered(stalls[n], ByLayer(stalls[..n]));
      InsertAdds(stalls[n], ByLayer(stalls[..n]));
      assert stalls == stalls[..n] + [stalls[n]];
    }
  }

  /** The stalls of one layer, in their given order. */
  function AtLayer(xs: seq<Stall>, layer: nat): seq<Stall> {
    if xs == [] then []
    else if xs[0].vendor.layer == layer then [xs[0]] + AtLayer(xs[1..], layer)
    else AtLayer(xs[1..], layer)
  }

  lemma {:induction false} AtLayerAppend(xs: seq<Stall>, s: Stall, layer: nat)
    ensures AtLayer(xs + [s], layer) == AtLayer(xs, layer) + (if s.vendor.layer == layer then [s] else [])
    decreases |xs|
  {
    if xs != [] {
      assert (xs + [s])[1..] == xs[1..] + [s];
      AtLayerAppend(xs[1..], s, layer);
    }
  }

  lemma {:induction false} NoneAtLayer(xs: seq<Stall>, layer: nat)
    requires Layered(xs) && (xs != [] ==> layer < xs[0].vendor.layer)
    ensures AtLayer(xs, layer) == []
    decreases |xs|
  {
    if xs != [] {
      NoneAtLayer(xs[1..], layer);
    }
  }

  lemma {:induction false} InsertIsStable(s: Stall, xs: seq<Stall>, layer: nat)
    requires Layered(xs)
    ensures AtLayer(InsertStall(s, xs), layer) == AtLayer(xs, layer) + (if s.vendor.layer == layer then [s] else [])
    decreases |xs|
  {
    if xs != [] {
      if s.vendor.layer < xs[0].vendor.layer {
        assert ([s] + xs)[1..] == xs;
        if s.vendor.layer == layer {
          NoneAtLayer(xs, layer);
        }
      } else {
        InsertIsStable(s, xs[1..], layer);
      }
    }
  }

  /** Stalls of one layer keep the order in which they were opened. */
  lemma {:induction false} ByLayerIsStable(stalls: seq<Stall>, layer: nat)
    ensures AtLayer(ByLayer(stalls), layer) == AtLayer(stalls, layer)
    decreases |stalls|
  {
    if stalls != [] {
      var n := |stalls| - 1;
      ByLayerIsStable(stalls[..n], layer);
      ByLayerSorts(stalls[..n]);
      InsertIsStable(stalls[n], ByLayer(stalls[..n]), layer);
      AtLayerAppend(stalls[..n], stalls[n], layer);
      assert stalls == stalls[..n] + [stalls[n]];
    }
  }

  /** The jars already bought, each once. */
  method OwnedJars(order: seq<Jar>, owned: set<Jar>) returns (got: seq<Jar>)
    requires Distinct(order)
    ensures Distinct(got) && forall k :: k in got <==> k in order && k in owned
  {
    got := [];
    for i := 0 to |order|
      invariant Distinct(got) && forall k :: k in got <==> k in order[..i] && k in owned
    {
      if order[i] in owned {
        got := got + [order[i]];
      }
    }
    assert order[..|order|] == order;
  }

  /**
   The whole shelf: exactly the open jars stand on it, each once, on the stall
   of its own vendor, and the stalls are ordered by layer.
   */
  method ShelfStalls(cat: Catalog, order: seq<Jar>, owned: set<Jar>, declined: set<Jar>, crew: Crew, dipIndex: nat)
    returns (stalls: seq<Stall>, got: seq<Jar>, ghost laid: seq<Stall>)
    requires WellFormed(cat) && Listed(cat, order) && OneVendorPerId(crew)
    ensures Layered(stalls) && multiset(stalls) == multiset(laid)
    ensures forall layer: nat :: AtLayer(stalls, layer) == AtLayer(laid, layer)
    ensures Distinct(got) && forall k :: k in got <==> k in order && k in owned
    ensures forall k :: Open(cat, owned, declined, crew, dipIndex, k) <==> exists s :: 0 <= s < |laid| && k in laid[s].jars
    ensures forall s, k | 0 <= s < |laid| && k in laid[s].jars :: k in crew && laid[s].vendor == crew[k]
    ensures forall s, t | 0 <= s < t < |laid| :: laid[s].vendor.id != laid[t].vendor.id
    ensures forall s | 0 <= s < |laid| :: laid[s].jars != [] && Distinct(laid[s].jars)
  {
    var open := OpenJars(cat, order, owned, declined, crew, dipIndex);
    var grouped := Group(crew, open);
    laid := grouped;
    got := OwnedJars(order, owned);
    ByLayerSorts(grouped);
    stalls := ByLayer(grouped);
    forall layer: nat
      ensures AtLayer(stalls, layer) == AtLayer(laid, layer)
    {
      ByLayerIsStable(grouped, layer);
    }
    forall k
      ensures Open(cat, owned, declined, crew, dipIndex, k) <==> exists s :: 0 <= s < |laid| && k in laid[s].jars
    {
      if Open(cat, owned, declined, crew, dipIndex, k) {
        assert k in open && k in crew;
      }
    }
  }
}

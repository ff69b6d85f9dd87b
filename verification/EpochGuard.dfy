/**
 Polling against optimistic writes (defcon-client/src/Wall.tsx): any number of
 list fetches and submissions in flight, guarded by an epoch that each fetch
 stamps itself with and each finished submission bumps.

 The server's list is the sequence of accepted entries, oldest first; a fetch is
 served one page, the newest `limit` of them (50 posts, 200 replies). A finished
 submission puts its entry on top, as the list of posts does.
 */
module EpochGuard {
  import opened Wrappers

  type Id = nat

  /** `seen` is how many entries the server held when it served the page. */
  datatype Fetch = Fetch(mark: nat, page: Option<seq<Id>>, seen: nat)

  /** A submission in flight: still mining, or accepted by the server and not yet back. */
  datatype Submission = Mining | Accepted(id: Id)

  datatype State = State(epoch: nat, list: seq<Id>, server: seq<Id>, fetches: map<nat, Fetch>,
                         submits: map<nat, Submission>, written: set<Id>)

  datatype Event =
    | FetchStart(f: nat)
    | FetchServed(f: nat)
    | FetchResolved(f: nat)
    | FetchFailed(f: nat)
    | SubmitStart(s: nat)
    | ServerAccepts(s: nat, id: Id)
    | OthersPost(id: Id)
    | SubmitReturned(s: nat)
    | SubmitFailed(s: nat)

  /** What makes a resolving fetch stale: an old epoch stamp, or only that a submission is in flight right now. */
  datatype Guard = ByEpoch | ByFlag

  const START: State := State(0, [], [], map[], map[], {})

  function Page(server: seq<Id>, limit: nat): seq<Id> {
    if |server| <= limit then server else server[|server| - limit..]
  }

  predicate Applies(g: Guard, s: State, f: Fetch) {
    match g
    case ByEpoch => f.mark == s.epoch
    case ByFlag => s.submits == map[]
  }

  /** One event; an event that cannot happen changes nothing. */
  function Step(g: Guard, limit: nat, s: State, e: Event): State {
    match e
    case FetchStart(f) =>
      if f in s.fetches then s else s.(fetches := s.fetches[f := Fetch(s.epoch, None, 0)])
    case FetchServed(f) =>
      if f !in s.fetches || s.fetches[f].page.Some? then s
      else s.(fetches := s.fetches[f := s.fetches[f].(page := Some(Page(s.server, limit)), seen := |s.server|)])
    case FetchResolved(f) =>
      if f !in s.fetches || s.fetches[f].page.None? then s
      else if Applies(g, s, s.fetches[f]) then s.(list := s.fetches[f].page.value, fetches := s.fetches - {f})
      else s.(fetches := s.fetches - {f})
    case FetchFailed(f) => s.(fetches := s.fetches - {f})
    case SubmitStart(n) => if n in s.submits then s else s.(submits := s.submits[n := Mining])
    case ServerAccepts(n, id) =>
      if n !in s.submits || s.submits[n].Accepted? || id in s.server then s
      else s.(server := s.server + [id], submits := s.submits[n := Accepted(id)])
    case OthersPost(id) => if id in s.server then s else s.(server := s.server + [id])
    case SubmitReturned(n) =>
      if n !in s.submits || s.submits[n].Mining? then s
      else s.(list := [s.submits[n].id] + s.list, epoch := s.epoch + 1, submits := s.submits - {n},
              written := s.written + {s.submits[n].id})
    case SubmitFailed(n) => if n !in s.submits then s else s.(epoch := s.epoch + 1, submits := s.submits - {n})
  }

  ghost function Run(g: Guard, limit: nat, s: State, events: seq<Event>): State
    decreases |events|
  {
    if events == [] then s else Run(g, limit, Step(g, limit, s, events[0]), events[1..])
  }

  // ------------------------------------------------------------------ lists

  ghost function Count(xs: seq<Id>, x: Id): nat {
    if xs == [] then 0 else (if xs[0] == x then 1 else 0) + Count(xs[1..], x)
  }

  lemma {:induction false} CountDistinct(xs: seq<Id>, x: Id)
    requires Distinct(xs)
    ensures Count(xs, x) == (if x in xs then 1 else 0)
    decreases |xs|
  {
    if xs != [] {
      CountDistinct(xs[1..], x);
      assert xs == [xs[0]] + xs[1..];
    }
  }

  lemma {:induction false} CountPositive(xs: seq<Id>, x: Id)
    ensures Count(xs, x) > 0 <==> x in xs
    decreases |xs|
  {
    if xs != [] {
      CountPositive(xs[1..], x);
      assert xs == [xs[0]] + xs[1..];
    }
  }

  /** At least `limit` entries were accepted after `x`. */
  ghost predicate Buried(server: seq<Id>, limit: nat, x: Id) {
    exists i :: 0 <= i < |server| && server[i] == x && |server| - 1 - i >= limit
  }

  /** A page served from a list that holds `x` misses `x` exactly when `limit` newer entries bury it. */
  lemma PageMissesIff(server: seq<Id>, limit: nat, x: Id)
    requires Distinct(server) && x in server
    ensures x !in Page(server, limit) <==> Buried(server, limit, x)
  {
    var i :| 0 <= i < |server| && server[i] == x;
    var page := Page(server, limit);
    var skip := |server| - |page|;
    assert page == server[skip..];
    if i >= skip {
      assert page[i - skip] == x;
    }
  }

  lemma BuriedStays(server: seq<Id>, limit: nat, x: Id, more: seq<Id>)
    requires Buried(server, limit, x)
    ensures Buried(server + more, limit, x)
  {
    var i :| 0 <= i < |server| && server[i] == x && |server| - 1 - i >= limit;
    assert (server + more)[i] == x;
  }

  // ------------------------------------------------------------------ the invariant

  /** A fetch that would still be applied saw a server list that held every entry written so far. */
  ghost predicate Fresh(s: State, limit: nat, f: Fetch) {
    f.page.Some? ==>
      && f.seen <= |s.server| && f.page.value == Page(s.server[..f.seen], limit)
      && (f.mark == s.epoch ==> forall x <- s.written :: x in s.server[..f.seen])
  }

  ghost predicate Inv(s: State, limit: nat) {
    && Distinct(s.server)
    && (forall x <- s.written :: x in s.server)
    && (forall n <- s.submits :: s.submits[n].Accepted? ==> s.submits[n].id in s.server && s.submits[n].id !in s.written)
    && (forall n, k | n in s.submits && k in s.submits && n != k && s.submits[n].Accepted? && s.submits[k].Accepted? ::
          s.submits[n].id != s.submits[k].id)
    && (forall f <- s.fetches :: s.fetches[f].mark <= s.epoch && Fresh(s, limit, s.fetches[f]))
    && (forall x <- s.written :: x in s.list || Buried(s.server, limit, x))
    && (forall x: Id :: Count(s.list, x) <= (if x in s.written then 2 else 1))
  }

  /** State after the first `k` events. */
  ghost function At(limit: nat, events: seq<Event>, k: nat): State
    requires k <= |events|
  {
    Run(ByEpoch, limit, START, events[..k])
  }

  lemma {:induction false} RunSnoc(g: Guard, limit: nat, s: State, events: seq<Event>, e: Event)
    ensures Run(g, limit, s, events + [e]) == Step(g, limit, Run(g, limit, s, events), e)
    decreases |events|
  {
    if events == [] {
      assert ([] + [e])[1..] == [];
    } else {
      assert (events + [e])[1..] == events[1..] + [e];
      RunSnoc(g, limit, Step(g, limit, s, events[0]), events[1..], e);
    }
  }

  lemma AtStep(limit: nat, events: seq<Event>, k: nat)
    requires k < |events|
    ensures At(limit, events, k + 1) == Step(ByEpoch, limit, At(limit, events, k), events[k])
  {
    assert events[..k + 1] == events[..k] + [events[k]];
    RunSnoc(ByEpoch, limit, START, events[..k], events[k]);
  }

  lemma AtHoldsInv(limit: nat, events: seq<Event>, k: nat)
    requires k <= |events|
    ensures Inv(At(limit, events, k), limit)
  {
    assert Inv(START, limit);
    RunKeepsInv(START, limit, events[..k]);
  }

  lemma AcceptKeepsInv(s: State, limit: nat, id: Id, submits: map<nat, Submission>)
    requires Inv(s, limit) && id !in s.server
    requires forall n <- submits :: submits[n] == Accepted(id) || (n in s.submits && submits[n] == s.submits[n])
    requires forall n, k | n in submits && k in submits && submits[n] == Accepted(id) && submits[k] == Accepted(id) :: n == k
    ensures Inv(s.(server := s.server + [id], submits := submits), limit)
  {
    var t := s.(server := s.server + [id], submits := submits);
    forall f <- t.fetches
      ensures Fresh(t, limit, t.fetches[f])
    {
      if t.fetches[f].page.Some? {
        assert t.server[..t.fetches[f].seen] == s.server[..t.fetches[f].seen];
      }
    }
    forall x <- t.written | x !in t.list
      ensures Buried(t.server, limit, x)
    {
      BuriedStays(s.server, limit, x, [id]);
    }
  }

  /** Applying a fetch keeps every written entry that is not buried, and restores distinct ids. */
  lemma ApplyKeepsInv(s: State, limit: nat, f: nat)
    requires Inv(s, limit) && f in s.fetches && s.fetches[f].page.Some? && s.fetches[f].mark == s.epoch
    ensures Inv(Step(ByEpoch, limit, s, FetchResolved(f)), limit)
    ensures Distinct(Step(ByEpoch, limit, s, FetchResolved(f)).list)
  {
    var t := Step(ByEpoch, limit, s, FetchResolved(f));
    var seen := s.server[..s.fetches[f].seen];
    assert Fresh(s, limit, s.fetches[f]);
    assert s.server == seen + s.server[s.fetches[f].seen..];
    forall x <- s.written
      ensures x in t.list || Buried(t.server, limit, x)
    {
      PageMissesIff(seen, limit, x);
      if x !in t.list {
        BuriedStays(seen, limit, x, s.server[s.fetches[f].seen..]);
      }
    }
    forall x: Id
      ensures Count(t.list, x) <= 1
    {
      CountDistinct(t.list, x);
    }
  }

  lemma ReturnKeepsInv(s: State, limit: nat, n: nat)
    requires Inv(s, limit) && n in s.submits && s.submits[n].Accepted?
    ensures Inv(Step(ByEpoch, limit, s, SubmitReturned(n)), limit)
  {
    var t := Step(ByEpoch, limit, s, SubmitReturned(n));
    var id := s.submits[n].id;
    assert t.list[0] == id && t.list[1..] == s.list;
    forall x <- t.written
      ensures x in t.list || Buried(t.server, limit, x)
    {
      if x != id && x in s.list {
        assert x in t.list[1..];
      }
    }
    forall f <- t.fetches
      ensures t.fetches[f].mark <= t.epoch && Fresh(t, limit, t.fetches[f])
    {
      assert Fresh(s, limit, s.fetches[f]);
    }
    forall x: Id
      ensures Count(t.list, x) <= (if x in t.written then 2 else 1)
    {
      assert Count(s.list, x) <= (if x in s.written then 2 else 1);
    }
  }

  lemma ServeKeepsInv(s: State, limit: nat, f: nat)
    requires Inv(s, limit) && f in s.fetches
    ensures Inv(s.(fetches := s.fetches[f := s.fetches[f].(page := Some(Page(s.server, limit)), seen := |s.server|)]), limit)
  {
    assert s.server[..|s.server|] == s.server;
  }

  lemma FailKeepsInv(s: State, limit: nat, n: nat)
    requires Inv(s, limit) && n in s.submits
    ensures Inv(s.(epoch := s.epoch + 1, submits := s.submits - {n}), limit)
  {
    var t := s.(epoch := s.epoch + 1, submits := s.submits - {n});
    forall f <- t.fetches
      ensures t.fetches[f].mark <= t.epoch && Fresh(t, limit, t.fetches[f])
    {
      assert Fresh(s, limit, s.fetches[f]);
    }
  }

  lemma StepKeepsInv(s: State, limit: nat, e: Event)
    requires Inv(s, limit)
    ensures Inv(Step(ByEpoch, limit, s, e), limit)
  {
    var t := Step(ByEpoch, limit, s, e);
    match e {
      case FetchStart(f) =>
      case FetchServed(f) =>
        if f in s.fetches {
          ServeKeepsInv(s, limit, f);
        }
      case FetchResolved(f) =>
        if f in s.fetches && s.fetches[f].page.Some? && s.fetches[f].mark == s.epoch {
          ApplyKeepsInv(s, limit, f);
        }
      case FetchFailed(f) =>
      case SubmitStart(n) =>
      case ServerAccepts(n, id) =>
        if t != s {
          AcceptKeepsInv(s, limit, id, t.submits);
        }
      case OthersPost(id) =>
        if t != s {
          AcceptKeepsInv(s, limit, id, s.submits);
        }
      case SubmitReturned(n) =>
        if n in s.submits && s.submits[n].Accepted? {
          ReturnKeepsInv(s, limit, n);
        }
      case SubmitFailed(n) =>
        if n in s.submits {
          FailKeepsInv(s, limit, n);
        }
    }
  }

  lemma {:induction false} RunKeepsInv(s: State, limit: nat, events: seq<Event>)
    requires Inv(s, limit)
    ensures Inv(Run(ByEpoch, limit, s, events), limit)
    decreases |events|
  {
    if events != [] {
      StepKeepsInv(s, limit, events[0]);
      RunKeepsInv(Step(ByEpoch, limit, s, events[0]), limit, events[1..]);
    }
  }

  // ------------------------------------------------------------------ the top of the list

  /** Nothing here starts a fetch or brings a submission home. */
  ghost predicate Quiet(events: seq<Event>) {
    forall i | 0 <= i < |events| :: !events[i].FetchStart? && !events[i].SubmitReturned?
  }

  lemma {:induction false} StaleFetchesChangeNothing(s: State, limit: nat, events: seq<Event>)
    requires Quiet(events) && forall f <- s.fetches :: s.fetches[f].mark < s.epoch
    ensures Run(ByEpoch, limit, s, events).list == s.list
    decreases |events|
  {
    if events != [] {
      assert !events[0].FetchStart? && !events[0].SubmitReturned?;
      StaleFetchesChangeNothing(Step(ByEpoch, limit, s, events[0]), limit, events[1..]);
    }
  }

  /**
   An entry whose submission comes home goes on top of the list as it stood, and no
   fetch that was in flight by then takes it down or reorders the rest.
   */
  lemma NewEntryTopsList(limit: nat, events: seq<Event>, n: nat, more: seq<Event>)
    requires var s := Run(ByEpoch, limit, START, events); n in s.submits && s.submits[n].Accepted?
    requires Quiet(more)
    ensures var s := Run(ByEpoch, limit, START, events);
            Run(ByEpoch, limit, Step(ByEpoch, limit, s, SubmitReturned(n)), more).list == [s.submits[n].id] + s.list
  {
    assert Inv(START, limit);
    RunKeepsInv(START, limit, events);
    StaleFetchesChangeNothing(Step(ByEpoch, limit, Run(ByEpoch, limit, START, events), SubmitReturned(n)), limit, more);
  }

  // ------------------------------------------------------------------ what the epoch counts

  /** The event brings a submission in flight to an end, well or badly. */
  ghost predicate Finishes(s: State, e: Event) {
    || (e.SubmitReturned? && e.s in s.submits && s.submits[e.s].Accepted?)
    || (e.SubmitFailed? && e.s in s.submits)
  }

  ghost function Finished(limit: nat, s: State, events: seq<Event>): nat
    decreases |events|
  {
    if events == [] then 0
    else (if Finishes(s, events[0]) then 1 else 0) + Finished(limit, Step(ByEpoch, limit, s, events[0]), events[1..])
  }

  /** The epoch counts the submissions that have finished. */
  lemma {:induction false} EpochCounts(limit: nat, s: State, events: seq<Event>)
    ensures Run(ByEpoch, limit, s, events).epoch == s.epoch + Finished(limit, s, events)
    decreases |events|
  {
    if events != [] {
      EpochCounts(limit, Step(ByEpoch, limit, s, events[0]), events[1..]);
    }
  }

  /** `f` is neither resolved nor failed along the way. */
  ghost predicate Open(events: seq<Event>, f: nat) {
    forall i | 0 <= i < |events| :: events[i] != FetchResolved(f) && events[i] != FetchFailed(f)
  }

  lemma {:induction false} OpenFetchKeepsMark(limit: nat, s: State, events: seq<Event>, f: nat)
    requires f in s.fetches && Open(events, f)
    ensures f in Run(ByEpoch, limit, s, events).fetches && Run(ByEpoch, limit, s, events).fetches[f].mark == s.fetches[f].mark
    decreases |events|
  {
    if events != [] {
      assert events[0] != FetchResolved(f) && events[0] != FetchFailed(f);
      OpenFetchKeepsMark(limit, Step(ByEpoch, limit, s, events[0]), events[1..], f);
    }
  }

  /**
   A fetch started in any state puts its page on screen exactly when no submission
   finished between its start and its return; otherwise the list stays as it is.
   */
  lemma FetchAppliesIff(limit: nat, s: State, f: nat, events: seq<Event>)
    requires f !in s.fetches && Open(events, f)
    requires f in Run(ByEpoch, limit, Step(ByEpoch, limit, s, FetchStart(f)), events).fetches
    requires Run(ByEpoch, limit, Step(ByEpoch, limit, s, FetchStart(f)), events).fetches[f].page.Some?
    ensures var t := Run(ByEpoch, limit, Step(ByEpoch, limit, s, FetchStart(f)), events);
            Step(ByEpoch, limit, t, FetchResolved(f)).list ==
            if Finished(limit, Step(ByEpoch, limit, s, FetchStart(f)), events) == 0 then t.fetches[f].page.value else t.list
  {
    var u := Step(ByEpoch, limit, s, FetchStart(f));
    EpochCounts(limit, u, events);
    OpenFetchKeepsMark(limit, u, events, f);
  }

  /** A fetch that failed is over: it stamps nothing, is never served and never resolves unless started anew. */
  lemma FailedFetchIsOver(limit: nat, s: State, f: nat)
    ensures var t := Step(ByEpoch, limit, s, FetchFailed(f));
            && t.list == s.list && t.epoch == s.epoch && t.server == s.server && t.submits == s.submits
            && Step(ByEpoch, limit, t, FetchServed(f)) == t && Step(ByEpoch, limit, t, FetchResolved(f)) == t
            && forall g <- s.fetches :: g != f ==> g in t.fetches && t.fetches[g] == s.fetches[g]
  {
  }

  /** The flag guard drops what resolves while a submission is in flight and applies everything else. */
  lemma FlagAppliesIff(limit: nat, s: State, f: nat)
    requires f in s.fetches && s.fetches[f].page.Some?
    ensures Step(ByFlag, limit, s, FetchResolved(f)).list == if |s.submits| == 0 then s.fetches[f].page.value else s.list
  {
  }

  // ------------------------------------------------------------------ what the guard gives

  /**
   In every interleaving: an entry whose submission returned stays on the list
   until at least `limit` newer entries have pushed it off the server's page,
   and no entry is ever shown more than twice.
   */
  lemma WrittenEntriesStay(limit: nat, events: seq<Event>)
    ensures var s := Run(ByEpoch, limit, START, events);
            && (forall x <- s.written :: x in s.list || Buried(s.server, limit, x))
            && (forall x: Id :: Count(s.list, x) <= 2)
            && (forall x: Id :: Count(s.list, x) == 2 ==> x in s.written)
  {
    assert Inv(START, limit);
    RunKeepsInv(START, limit, events);
    var s := Run(ByEpoch, limit, START, events);
    forall x: Id
      ensures Count(s.list, x) <= 2 && (Count(s.list, x) == 2 ==> x in s.written)
    {
      assert Count(s.list, x) <= (if x in s.written then 2 else 1);
    }
  }

  /** Event `k` is the server accepting submission `n` as `id`. */
  ghost predicate AcceptsAt(limit: nat, events: seq<Event>, k: nat, n: nat, id: Id) {
    && k < |events| && events[k] == ServerAccepts(n, id)
    && id !in At(limit, events, k).server && id in At(limit, events, k + 1).server
  }

  /** Event `k` applies a fetched page to the list. */
  ghost predicate AppliesAt(limit: nat, events: seq<Event>, k: nat, page: seq<Id>) {
    && k < |events| && events[k].FetchResolved?
    && var s, f := At(limit, events, k), events[k].f;
    f in s.fetches && s.fetches[f].page == Some(page) && Applies(ByEpoch, s, s.fetches[f])
  }

  ghost predicate BringsAt(limit: nat, events: seq<Event>, k: nat, id: Id) {
    exists page :: AppliesAt(limit, events, k, page) && id in page
  }

  ghost predicate DropsAt(limit: nat, events: seq<Event>, k: nat, id: Id) {
    exists page :: AppliesAt(limit, events, k, page) && id !in page
  }

  /** Of the first `m` events, number `k` applied a page with `id` and no later one applied a page without it. */
  ghost predicate BroughtBy(limit: nat, events: seq<Event>, m: nat, k: nat, id: Id)
    requires m <= |events|
  {
    k < m && BringsAt(limit, events, k, id) && forall j | k < j < m :: !DropsAt(limit, events, j, id)
  }

  /** What one event does to the place of `id` on the list, as long as `id` is not written by it. */
  lemma ListStep(limit: nat, events: seq<Event>, m: nat, id: Id)
    requires m < |events| && id !in At(limit, events, m + 1).written
    ensures id !in At(limit, events, m).written
    ensures BringsAt(limit, events, m, id) ==> id in At(limit, events, m + 1).list && !DropsAt(limit, events, m, id)
    ensures DropsAt(limit, events, m, id) ==> id !in At(limit, events, m + 1).list
    ensures !BringsAt(limit, events, m, id) && !DropsAt(limit, events, m, id) ==>
              (id in At(limit, events, m + 1).list <==> id in At(limit, events, m).list)
  {
    AtStep(limit, events, m);
    var s, t := At(limit, events, m), At(limit, events, m + 1);
    var e := events[m];
    if e.FetchResolved? && e.f in s.fetches && s.fetches[e.f].page.Some? && Applies(ByEpoch, s, s.fetches[e.f]) {
      assert AppliesAt(limit, events, m, s.fetches[e.f].page.value);
    } else if e.SubmitReturned? && e.s in s.submits && s.submits[e.s].Accepted? {
      assert t.list == [s.submits[e.s].id] + s.list;
    }
  }

  lemma BroughtOn(limit: nat, events: seq<Event>, m: nat, k: nat, id: Id)
    requires m < |events| && !BringsAt(limit, events, m, id) && !DropsAt(limit, events, m, id)
    ensures BroughtBy(limit, events, m + 1, k, id) <==> BroughtBy(limit, events, m, k, id)
  {
  }

  /** An entry not yet written is on the list exactly when some applied page brought it and none since dropped it. */
  lemma {:induction false} OnListIff(limit: nat, events: seq<Event>, m: nat, id: Id)
    requires m <= |events| && id !in At(limit, events, m).written
    ensures id in At(limit, events, m).list <==> exists k :: BroughtBy(limit, events, m, k, id)
    decreases m
  {
    if m > 0 {
      var p := m - 1;
      ListStep(limit, events, p, id);
      OnListIff(limit, events, p, id);
      if BringsAt(limit, events, p, id) {
        assert BroughtBy(limit, events, m, p, id);
      } else if !DropsAt(limit, events, p, id) {
        forall k: nat
          ensures BroughtBy(limit, events, m, k, id) <==> BroughtBy(limit, events, p, k, id)
        {
          BroughtOn(limit, events, p, k, id);
        }
      }
    } else {
      assert events[..0] == [];
    }
  }

  /** The server's list only grows. */
  lemma {:induction false} ServerGrows(limit: nat, events: seq<Event>, k: nat, m: nat)
    requires k <= m <= |events|
    ensures At(limit, events, k).server <= At(limit, events, m).server
    decreases m - k
  {
    if k < m {
      AtStep(limit, events, m - 1);
      ServerGrows(limit, events, k, m - 1);
    }
  }

  /** A submission the server has accepted was accepted at some event. */
  lemma {:induction false} AcceptedAtSome(limit: nat, events: seq<Event>, m: nat, n: nat, id: Id) returns (a: nat)
    requires m <= |events| && n in At(limit, events, m).submits && At(limit, events, m).submits[n] == Accepted(id)
    ensures a < m && AcceptsAt(limit, events, a, n, id)
    decreases m
  {
    assert events[..0] == [];
    assert m > 0;
    AtStep(limit, events, m - 1);
    var s := At(limit, events, m - 1);
    if n in s.submits && s.submits[n] == Accepted(id) {
      a := AcceptedAtSome(limit, events, m - 1, n, id);
    } else {
      a := m - 1;
    }
  }

  /** A page that holds `id` can only be applied after the server accepted it. */
  lemma BroughtAfterAccept(limit: nat, events: seq<Event>, a: nat, n: nat, id: Id, k: nat)
    requires AcceptsAt(limit, events, a, n, id) && BringsAt(limit, events, k, id)
    ensures a < k
  {
    AtHoldsInv(limit, events, k);
    var s := At(limit, events, k);
    var page :| AppliesAt(limit, events, k, page) && id in page;
    assert Fresh(s, limit, s.fetches[events[k].f]);
    assert id in s.server;
    if k <= a {
      ServerGrows(limit, events, k, a);
    }
  }

  /**
   A returning submission leaves its entry on the list twice exactly when,
   between its acceptance and its return, a fetched page holding the entry was
   applied and no page without it was applied after that.
   */
  lemma SecondCopyIff(limit: nat, events: seq<Event>, n: nat, id: Id)
    requires var s := At(limit, events, |events|); n in s.submits && s.submits[n] == Accepted(id)
    ensures var t := Step(ByEpoch, limit, At(limit, events, |events|), SubmitReturned(n));
            Count(t.list, id) == 2 <==>
            exists a, k :: AcceptsAt(limit, events, a, n, id) && a < k && BroughtBy(limit, events, |events|, k, id)
  {
    var m := |events|;
    AtHoldsInv(limit, events, m);
    var s := At(limit, events, m);
    var t := Step(ByEpoch, limit, s, SubmitReturned(n));
    CountPositive(s.list, id);
    assert Count(s.list, id) <= 1;
    assert t.list[0] == id && t.list[1..] == s.list;
    OnListIff(limit, events, m, id);
    var a := AcceptedAtSome(limit, events, m, n, id);
    if k :| BroughtBy(limit, events, m, k, id) {
      BroughtAfterAccept(limit, events, a, n, id, k);
    }
  }

  /** Every fetch applied in a run leaves each id on the list once. */
  lemma AppliedFetchIsDistinct(limit: nat, events: seq<Event>, f: nat)
    requires var s := Run(ByEpoch, limit, START, events);
             f in s.fetches && s.fetches[f].page.Some? && Applies(ByEpoch, s, s.fetches[f])
    ensures Distinct(Step(ByEpoch, limit, Run(ByEpoch, limit, START, events), FetchResolved(f)).list)
  {
    assert Inv(START, limit);
    RunKeepsInv(START, limit, events);
    ApplyKeepsInv(Run(ByEpoch, limit, START, events), limit, f);
  }

  function Others(n: nat): seq<Event> {
    if n == 0 then [] else Others(n - 1) + [OthersPost(n)]
  }

  function UpTo(n: nat): (ids: seq<Id>)
    ensures |ids| == n && forall i | 0 <= i < n :: ids[i] == i + 1
  {
    if n == 0 then [] else UpTo(n - 1) + [n]
  }

  lemma {:induction false} OthersPosted(limit: nat, s: State, n: nat)
    requires s.server == [0]
    ensures Run(ByEpoch, limit, s, Others(n)) == s.(server := [0] + UpTo(n))
    decreases n
  {
    if n > 0 {
      OthersPosted(limit, s, n - 1);
      RunSnoc(ByEpoch, limit, s, Others(n - 1), OthersPost(n));
      assert [0] + UpTo(n - 1) + [n] == [0] + UpTo(n);
    } else {
      assert [0] + UpTo(0) == [0];
    }
  }

  lemma {:induction false} RunAppend(g: Guard, limit: nat, s: State, a: seq<Event>, b: seq<Event>)
    ensures Run(g, limit, s, a + b) == Run(g, limit, Run(g, limit, s, a), b)
    decreases |a|
  {
    if a == [] {
      assert a + b == b;
    } else {
      assert (a + b)[1..] == a[1..] + b;
      RunAppend(g, limit, Step(g, limit, s, a[0]), a[1..], b);
    }
  }

  lemma ThreeSteps(limit: nat, s: State, a: Event, b: Event, c: Event)
    ensures Run(ByEpoch, limit, s, [a, b, c]) == Step(ByEpoch, limit, Step(ByEpoch, limit, Step(ByEpoch, limit, s, a), b), c)
  {
    assert [a, b, c][1..] == [b, c] && [b, c][1..] == [c] && [c][1..] == [];
    var s1 := Step(ByEpoch, limit, s, a);
    var s2 := Step(ByEpoch, limit, s1, b);
    var s3 := Step(ByEpoch, limit, s2, c);
    assert Run(ByEpoch, limit, s3, []) == s3;
    assert Run(ByEpoch, limit, s2, [c]) == s3;
    assert Run(ByEpoch, limit, s1, [b, c]) == s3;
  }

  /** For every page size a written entry does leave the list: a page of newer entries is posted and the next fetch applies. */
  lemma BuriedEntryLeaves(limit: nat)
    ensures var events := [SubmitStart(1), ServerAccepts(1, 0), SubmitReturned(1)] + Others(limit)
                          + [FetchStart(0), FetchServed(0), FetchResolved(0)];
            var s := Run(ByEpoch, limit, START, events);
            0 in s.written && 0 !in s.list
  {
    var submit := [SubmitStart(1), ServerAccepts(1, 0), SubmitReturned(1)];
    var poll := [FetchStart(0), FetchServed(0), FetchResolved(0)];
    var s1 := State(1, [0], [0], map[], map[], {0});
    ThreeSteps(limit, START, submit[0], submit[1], submit[2]);
    assert Run(ByEpoch, limit, START, submit) == s1;
    var s2 := s1.(server := [0] + UpTo(limit));
    OthersPosted(limit, s1, limit);
    RunAppend(ByEpoch, limit, START, submit, Others(limit));
    RunAppend(ByEpoch, limit, START, submit + Others(limit), poll);
    ThreeSteps(limit, s2, poll[0], poll[1], poll[2]);
    assert Page(s2.server, limit) == UpTo(limit);
  }

  /**
   The flag this guard replaced: a poll served before a submission and resolving
   after it finished erases the entry although nothing buries it.
   */
  lemma FlagGuardLosesEntry(limit: nat)
    requires limit > 0
    ensures exists events: seq<Event>, x: Id ::
              var s := Run(ByFlag, limit, START, events);
              x in s.written && x !in s.list && !Buried(s.server, limit, x)
  {
    var e0, e1, e2 := FetchStart(0), FetchServed(0), SubmitStart(1);
    var e3, e4, e5 := ServerAccepts(1, 7), SubmitReturned(1), FetchResolved(0);
    var s1 := Step(ByFlag, limit, START, e0);
    var s2 := Step(ByFlag, limit, s1, e1);
    var s3 := Step(ByFlag, limit, s2, e2);
    var s4 := Step(ByFlag, limit, s3, e3);
    var s5 := Step(ByFlag, limit, s4, e4);
    var s6 := Step(ByFlag, limit, s5, e5);
    assert s5.submits == map[] && s6.list == [] && s6.server == [7];
    assert Run(ByFlag, limit, s5, [e5]) == s6 by {
      assert Run(ByFlag, limit, s6, []) == s6 && [e5][1..] == [];
    }
    assert [e4, e5][1..] == [e5] && Run(ByFlag, limit, s4, [e4, e5]) == s6;
    assert [e3, e4, e5][1..] == [e4, e5] && Run(ByFlag, limit, s3, [e3, e4, e5]) == s6;
    assert [e2, e3, e4, e5][1..] == [e3, e4, e5] && Run(ByFlag, limit, s2, [e2, e3, e4, e5]) == s6;
    assert [e1, e2, e3, e4, e5][1..] == [e2, e3, e4, e5] && Run(ByFlag, limit, s1, [e1, e2, e3, e4, e5]) == s6;
    var events := [e0, e1, e2, e3, e4, e5];
    assert events[1..] == [e1, e2, e3, e4, e5] && Run(ByFlag, limit, START, events) == s6;
    assert 7 in s6.written && 7 !in s6.list && !Buried(s6.server, limit, 7);
  }
}

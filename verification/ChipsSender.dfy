/**
 The single-flight sender (chips-client/src/App.tsx, the sender effect): effect
 runs, network replies and retry timers interleave freely with queue changes.

 `scheduled` says that React owes the effect a run because one of its
 dependencies changed; `started` numbers the flights so that a rerun can cancel
 the flight its predecessor began.
 */
module ChipsSender {
  import opened Wrappers
  import opened ChipsEngine
  import opened ChipsQueue

  datatype Phase = Submitting | Refreshing

  datatype Flight = Flight(taken: Queue, phase: Phase, cancelled: bool)

  datatype State = State(queue: Queue, nextId: nat, sending: bool, flight: Option<Flight>, timers: nat,
                         scheduled: bool, ready: bool, backoff: nat, acked: seq<nat>)

  datatype Event =
    | Enqueue(what: Move, table: nat, author: nat, ms: nat)
    | EffectRun
    | SubmitOk(at: nat)
    | RefreshDone
    | SubmitFailed
    | TimerFires
    | Retire(gone: set<nat>)
    | ReadyChange(now: bool)

  /** Whether a failed submission arms its retry even when a newer effect run has superseded it. */
  datatype Retry = Always | UnlessCancelled

  const START: State := State([], 1, false, None, 0, true, false, 0, [])

  function Ids(moves: Queue): seq<nat> {
    if moves == [] then [] else [moves[0].id] + Ids(moves[1..])
  }

  function Without(q: Queue, gone: set<nat>): Queue {
    if q == [] then []
    else if q[0].id in gone then Without(q[1..], gone)
    else [q[0]] + Without(q[1..], gone)
  }

  function NextBackoff(b: nat): nat {
    Min(if b == 0 then 2_000 else 2 * b, 60_000)
  }

  /** The end of a flight: the tick that re-arms the effect, then the lock is released. */
  function Land(s: State): State {
    s.(scheduled := true, sending := false, flight := None)
  }

  /** One event for the table and identity in play; an event that cannot happen changes nothing. */
  function Step(retry: Retry, table: nat, author: nat, s: State, e: Event): State {
    match e
    case Enqueue(what, t, a, ms) =>
      s.(queue := s.queue + [QMove(s.nextId, t, a, what, ms, None)], nextId := s.nextId + 1, scheduled := true)
    case EffectRun =>
      if !s.scheduled then s
      else
        var cleaned := s.(scheduled := false,
                          flight := if s.flight.Some? then Some(s.flight.value.(cancelled := true)) else None);
        if s.sending || !s.ready || s.queue == [] then cleaned
        else
          var plan := Plan(s.queue, table, author);
          if plan == [] then cleaned
          else cleaned.(sending := true, flight := Some(Flight(plan, Submitting, false)))
    case SubmitOk(at) =>
      if s.flight.None? || s.flight.value.phase.Refreshing? then s
      else
        var f := s.flight.value;
        var marked := s.(queue := MarkSent(s.queue, f.taken, at), scheduled := true, backoff := 0, acked := s.acked + Ids(f.taken));
        if f.cancelled then Land(marked) else marked.(flight := Some(f.(phase := Refreshing)))
    case RefreshDone =>
      if s.flight.None? || s.flight.value.phase.Submitting? then s else Land(s)
    case SubmitFailed =>
      if s.flight.None? || s.flight.value.phase.Refreshing? then s
      else
        var arms := retry.Always? || !s.flight.value.cancelled;
        s.(backoff := NextBackoff(s.backoff), timers := if arms then s.timers + 1 else s.timers,
           sending := false, flight := None)
    case TimerFires => if s.timers == 0 then s else s.(timers := s.timers - 1, scheduled := true)
    case Retire(gone) =>
      var q := Without(s.queue, gone);
      if |q| == |s.queue| then s else s.(queue := q, scheduled := true)
    case ReadyChange(now) => s.(ready := now, scheduled := true)
  }

  ghost function Run(retry: Retry, table: nat, author: nat, s: State, events: seq<Event>): State
    decreases |events|
  {
    if events == [] then s else Run(retry, table, author, Step(retry, table, author, s, events[0]), events[1..])
  }

  // ------------------------------------------------------------------ never stalled

  ghost predicate HasWork(s: State, table: nat, author: nat) {
    s.ready && exists m :: m in s.queue && Sendable(m, table, author)
  }

  /** One flight at most, the lock is held exactly while there is one, and work never waits with nothing to wake it. */
  ghost predicate Lively(s: State, table: nat, author: nat) {
    && (s.sending <==> s.flight.Some?)
    && (HasWork(s, table, author) ==> s.flight.Some? || s.timers > 0 || s.scheduled)
    && s.backoff <= 60_000
  }

  lemma {:induction false} WithoutIs(q: Queue, gone: set<nat>)
    ensures forall m :: m in Without(q, gone) <==> m in q && m.id !in gone
    ensures |Without(q, gone)| <= |q| && (|Without(q, gone)| == |q| ==> Without(q, gone) == q)
    decreases |q|
  {
    if q != [] {
      WithoutIs(q[1..], gone);
      assert q == [q[0]] + q[1..];
    }
  }

  lemma {:induction false} WithoutKeepsOrder(q: Queue, gone: set<nat>)
    requires Rising(q)
    ensures Rising(Without(q, gone))
    decreases |q|
  {
    if q != [] {
      WithoutKeepsOrder(q[1..], gone);
      WithoutIs(q[1..], gone);
      var rest := Without(q[1..], gone);
      forall m <- rest
        ensures q[0].id < m.id
      {
        assert m in q[1..];
      }
      RisingFrom(q[0], rest);
    }
  }

  lemma RisingFrom(m: QMove, rest: Queue)
    requires Rising(rest) && forall o <- rest :: m.id < o.id
    ensures Rising([m] + rest)
  {
  }

  lemma {:induction false} EmptyPlan(q: Queue, table: nat, author: nat)
    ensures Plan(q, table, author) == [] <==> forall m <- q :: !Sendable(m, table, author)
  {
    SendableIs(q, table, author);
    var s := SendableOf(q, table, author);
    BatchIsPrefix(s);
    if s != [] {
      assert s[0] in s;
    }
  }

  lemma StepKeepsLively(table: nat, author: nat, s: State, e: Event)
    requires Lively(s, table, author)
    ensures Lively(Step(Always, table, author, s, e), table, author)
  {
    if e.EffectRun? {
      EmptyPlan(s.queue, table, author);
    }
  }

  lemma {:induction false} SenderNeverStalls(table: nat, author: nat, s: State, events: seq<Event>)
    requires Lively(s, table, author)
    ensures Lively(Run(Always, table, author, s, events), table, author)
    decreases |events|
  {
    if events != [] {
      StepKeepsLively(table, author, s, events[0]);
      SenderNeverStalls(table, author, Step(Always, table, author, s, events[0]), events[1..]);
    }
  }

  /** In every run from a fresh page, unsent work always has a flight, a timer or an effect run ahead of it. */
  lemma EveryRunIsLively(table: nat, author: nat, events: seq<Event>)
    ensures Lively(Run(Always, table, author, START, events), table, author)
  {
    SenderNeverStalls(table, author, START, events);
  }

  const DIP_A: Event := Enqueue(Dip(5), 1, 1, 10)
  const DIP_B: Event := Enqueue(Dip(6), 1, 1, 11)

  /** Were the retry skipped for a superseded attempt, a failure after a second dip would leave the sender idle. */
  lemma CancelledRetryStalls()
    ensures exists events: seq<Event> :: !Lively(Run(UnlessCancelled, 1, 1, START, events), 1, 1)
  {
    var a := QMove(1, 1, 1, Dip(5), 10, None);
    var s1 := Step(UnlessCancelled, 1, 1, START, ReadyChange(true));
    var s2 := Step(UnlessCancelled, 1, 1, s1, DIP_A);
    assert s2 == State([a], 2, false, None, 0, true, true, 0, []);
    var s3 := Step(UnlessCancelled, 1, 1, s2, EffectRun);
    FirstSendFlies(s2);
    var s4 := Step(UnlessCancelled, 1, 1, s3, DIP_B);
    var s5 := Step(UnlessCancelled, 1, 1, s4, EffectRun);
    var s6 := Step(UnlessCancelled, 1, 1, s5, SubmitFailed);
    SupersededFailureStalls(s3, a, 1, 1);
    SixSteps(ReadyChange(true), DIP_A, EffectRun, DIP_B, EffectRun, SubmitFailed);
    assert Run(UnlessCancelled, 1, 1, START, [ReadyChange(true), DIP_A, EffectRun, DIP_B, EffectRun, SubmitFailed]) == s6;
  }

  lemma FirstSendFlies(s: State)
    requires !s.sending && s.ready && s.scheduled && s.timers == 0 && |s.queue| == 1 && Sendable(s.queue[0], 1, 1)
    ensures var t := Step(UnlessCancelled, 1, 1, s, EffectRun);
            t.sending && t.flight.Some? && t.flight.value.phase.Submitting? && t.timers == 0 && t.ready && t.queue == s.queue
  {
    EmptyPlan(s.queue, 1, 1);
    assert s.queue[0] in s.queue;
  }

  /** With a submission in flight and no timer, a further move and then a failure leave work with nothing to wake it. */
  lemma SupersededFailureStalls(s: State, m: QMove, table: nat, author: nat)
    requires s.sending && s.flight.Some? && s.flight.value.phase.Submitting? && s.timers == 0 && s.ready
    requires m in s.queue && Sendable(m, table, author)
    ensures var t := Step(UnlessCancelled, table, author, s, DIP_B);
            var u := Step(UnlessCancelled, table, author, t, EffectRun);
            !Lively(Step(UnlessCancelled, table, author, u, SubmitFailed), table, author)
  {
    var t := Step(UnlessCancelled, table, author, s, DIP_B);
    var u := Step(UnlessCancelled, table, author, t, EffectRun);
    var v := Step(UnlessCancelled, table, author, u, SubmitFailed);
    assert v.queue == s.queue + [t.queue[|s.queue|]] && m in v.queue;
    assert HasWork(v, table, author);
  }

  lemma SixSteps(a: Event, b: Event, c: Event, d: Event, e: Event, f: Event)
    ensures Run(UnlessCancelled, 1, 1, START, [a, b, c, d, e, f]) ==
            var s1 := Step(UnlessCancelled, 1, 1, START, a);
            var s2 := Step(UnlessCancelled, 1, 1, s1, b);
            var s3 := Step(UnlessCancelled, 1, 1, s2, c);
            var s4 := Step(UnlessCancelled, 1, 1, s3, d);
            var s5 := Step(UnlessCancelled, 1, 1, s4, e);
            Step(UnlessCancelled, 1, 1, s5, f)
  {
    assert [f][1..] == [] && [e, f][1..] == [f] && [d, e, f][1..] == [e, f] && [c, d, e, f][1..] == [d, e, f];
    assert [b, c, d, e, f][1..] == [c, d, e, f] && [a, b, c, d, e, f][1..] == [b, c, d, e, f];
    var s1 := Step(UnlessCancelled, 1, 1, START, a);
    var s2 := Step(UnlessCancelled, 1, 1, s1, b);
    var s3 := Step(UnlessCancelled, 1, 1, s2, c);
    var s4 := Step(UnlessCancelled, 1, 1, s3, d);
    var s5 := Step(UnlessCancelled, 1, 1, s4, e);
    var s6 := Step(UnlessCancelled, 1, 1, s5, f);
    assert Run(UnlessCancelled, 1, 1, s6, []) == s6;
    assert Run(UnlessCancelled, 1, 1, s5, [f]) == s6;
    assert Run(UnlessCancelled, 1, 1, s4, [e, f]) == s6;
    assert Run(UnlessCancelled, 1, 1, s3, [d, e, f]) == s6;
    assert Run(UnlessCancelled, 1, 1, s2, [c, d, e, f]) == s6;
    assert Run(UnlessCancelled, 1, 1, s1, [b, c, d, e, f]) == s6;
  }

  // ------------------------------------------------------------------ strict order, each move once

  /** `taken` comes after everything acknowledged and before everything else still sendable. */
  ghost predicate Next(s: State, table: nat, author: nat, taken: Queue) {
    && Rising(taken) && taken != []
    && (forall t <- taken, x <- s.acked :: x < t.id)
    && (forall t <- taken :: t.id < s.nextId)
    && (forall m <- s.queue | Sendable(m, table, author) :: HasId(taken, m.id) || forall t <- taken :: t.id < m.id)
  }

  ghost predicate InOrderSoFar(s: State, table: nat, author: nat) {
    && Rising(s.queue) && (forall m <- s.queue :: m.id < s.nextId)
    && StrictlyRising(s.acked) && (forall x <- s.acked :: x < s.nextId)
    && (forall m <- s.queue, x <- s.acked :: Sendable(m, table, author) ==> x < m.id)
    && (s.flight.Some? && s.flight.value.phase.Submitting? ==> Next(s, table, author, s.flight.value.taken))
    && (s.sending <==> s.flight.Some?)
  }

  lemma {:induction false} IdsIs(moves: Queue)
    ensures |Ids(moves)| == |moves| && forall i | 0 <= i < |moves| :: Ids(moves)[i] == moves[i].id
    decreases |moves|
  {
    if moves != [] {
      IdsIs(moves[1..]);
    }
  }

  lemma SameIdsRise(q: Queue, u: Queue)
    requires Rising(q) && |u| == |q| && forall i | 0 <= i < |u| :: u[i].id == q[i].id
    ensures Rising(u)
  {
  }

  /** After the ack only moves outside the batch are still sendable. */
  lemma MarkedQueue(q: Queue, taken: Queue, at: nat, table: nat, author: nat)
    requires Rising(q)
    ensures Rising(MarkSent(q, taken, at))
    ensures forall m <- MarkSent(q, taken, at) :: exists o :: o in q && o.id == m.id
    ensures forall m <- MarkSent(q, taken, at) | Sendable(m, table, author) :: m in q && !HasId(taken, m.id)
  {
    MarkSentIs(q, taken, at);
    var u := MarkSent(q, taken, at);
    SameIdsRise(q, u);
    forall m <- u
      ensures exists o :: o in q && o.id == m.id
      ensures Sendable(m, table, author) ==> m in q && !HasId(taken, m.id)
    {
      var i :| 0 <= i < |u| && u[i] == m;
      assert q[i] in q;
    }
  }

  lemma AckedMembers(acked: seq<nat>, taken: Queue)
    ensures forall x <- acked + Ids(taken) :: x in acked || exists t :: t in taken && t.id == x
  {
    IdsIs(taken);
    forall x <- acked + Ids(taken) | x !in acked
      ensures exists t :: t in taken && t.id == x
    {
      var i :| 0 <= i < |Ids(taken)| && Ids(taken)[i] == x;
      assert taken[i] in taken && taken[i].id == x;
    }
  }

  lemma AckKeepsOrder(table: nat, author: nat, s: State, at: nat)
    requires InOrderSoFar(s, table, author) && s.flight.Some? && s.flight.value.phase.Submitting?
    ensures InOrderSoFar(Step(Always, table, author, s, SubmitOk(at)), table, author)
  {
    var taken := s.flight.value.taken;
    MarkedQueue(s.queue, taken, at, table, author);
    AckedMembers(s.acked, taken);
    AckedIncreasing(s.acked, taken);
  }

  lemma AckedIncreasing(acked: seq<nat>, taken: Queue)
    requires StrictlyRising(acked) && Rising(taken) && forall t <- taken, x <- acked :: x < t.id
    ensures StrictlyRising(acked + Ids(taken))
  {
    IdsIs(taken);
    var all := acked + Ids(taken);
    forall i, j | 0 <= i < j < |all|
      ensures all[i] < all[j]
    {
      if i < |acked| <= j {
        assert acked[i] in acked && taken[j - |acked|] in taken;
      }
    }
  }

  lemma PlanKeepsOrder(table: nat, author: nat, s: State)
    requires InOrderSoFar(s, table, author) && s.scheduled
    ensures InOrderSoFar(Step(Always, table, author, s, EffectRun), table, author)
  {
    PlanIs(s.queue, table, author);
    var u := Step(Always, table, author, s, EffectRun);
    if u.flight.Some? && s.flight.None? {
      var taken := u.flight.value.taken;
      forall m <- u.queue | Sendable(m, table, author)
        ensures HasId(taken, m.id) || forall t <- taken :: t.id < m.id
      {
        if m in taken {
          var i :| 0 <= i < |taken| && taken[i] == m;
          assert taken[i].id == m.id;
        }
      }
    }
  }

  lemma EnqueueKeepsOrder(table: nat, author: nat, s: State, e: Event)
    requires InOrderSoFar(s, table, author) && e.Enqueue?
    ensures InOrderSoFar(Step(Always, table, author, s, e), table, author)
  {
    var m := QMove(s.nextId, e.table, e.author, e.what, e.ms, None);
    RisingSnoc(s.queue, m);
    if s.flight.Some? && s.flight.value.phase.Submitting? {
      EnqueueKeepsNext(s, table, author, s.flight.value.taken, m);
    }
  }

  lemma RisingSnoc(q: Queue, m: QMove)
    requires Rising(q) && forall o <- q :: o.id < m.id
    ensures Rising(q + [m]) && forall o <- q + [m] :: o in q || o == m
  {
    assert forall i | 0 <= i < |q| :: q[i] in q;
  }

  /** A move queued last comes after whatever is in flight. */
  lemma EnqueueKeepsNext(s: State, table: nat, author: nat, taken: Queue, m: QMove)
    requires Next(s, table, author, taken) && m.id == s.nextId
    ensures Next(s.(queue := s.queue + [m], nextId := s.nextId + 1, scheduled := true), table, author, taken)
  {
  }

  lemma RetireKeepsOrder(table: nat, author: nat, s: State, gone: set<nat>)
    requires InOrderSoFar(s, table, author)
    ensures InOrderSoFar(Step(Always, table, author, s, Retire(gone)), table, author)
  {
    WithoutIs(s.queue, gone);
    WithoutKeepsOrder(s.queue, gone);
  }

  lemma StepKeepsOrder(table: nat, author: nat, s: State, e: Event)
    requires InOrderSoFar(s, table, author)
    ensures InOrderSoFar(Step(Always, table, author, s, e), table, author)
  {
    match e {
      case Enqueue(_, _, _, _) => EnqueueKeepsOrder(table, author, s, e);
      case EffectRun =>
        if s.scheduled {
          PlanKeepsOrder(table, author, s);
        }
      case SubmitOk(at) =>
        if s.flight.Some? && s.flight.value.phase.Submitting? {
          AckKeepsOrder(table, author, s, at);
        }
      case Retire(gone) => RetireKeepsOrder(table, author, s, gone);
      case RefreshDone =>
      case SubmitFailed =>
      case TimerFires =>
      case ReadyChange(_) =>
    }
  }

  lemma {:induction false} RunKeepsOrder(table: nat, author: nat, s: State, events: seq<Event>)
    requires InOrderSoFar(s, table, author)
    ensures InOrderSoFar(Run(Always, table, author, s, events), table, author)
    decreases |events|
  {
    if events != [] {
      StepKeepsOrder(table, author, s, events[0]);
      RunKeepsOrder(table, author, Step(Always, table, author, s, events[0]), events[1..]);
    }
  }

  /**
   Over every run the moves acknowledged for the table and identity in play are
   in the order they were queued and none twice, and what is still sendable was
   queued later than all of them: a failing head is never overtaken.
   */
  lemma MovesLandInQueueOrder(table: nat, author: nat, events: seq<Event>)
    ensures var s := Run(Always, table, author, START, events);
            && StrictlyRising(s.acked)
            && (forall m <- s.queue, x <- s.acked :: Sendable(m, table, author) ==> x < m.id)
  {
    RunKeepsOrder(table, author, START, events);
  }

  // ------------------------------------------------------------------ one body, one wait

  /** What one reply body can carry for the table and identity in play: a single move, or two to twenty-four banks. */
  ghost predicate OneBody(taken: Queue, table: nat, author: nat) {
    && (|taken| == 1 || (1 < |taken| <= 24 && AllBanks(taken)))
    && forall i | 0 <= i < |taken| :: Active(taken[i], table, author) && Submittable(taken[i])
  }

  ghost predicate FliesOneBody(s: State, table: nat, author: nat) {
    s.flight.Some? ==> OneBody(s.flight.value.taken, table, author)
  }

  lemma PlanIsOneBody(q: Queue, table: nat, author: nat)
    requires Plan(q, table, author) != []
    ensures OneBody(Plan(q, table, author), table, author)
  {
    var s, p := SendableOf(q, table, author), Plan(q, table, author);
    SendableIs(q, table, author);
    BatchIs(s);
    forall i | 0 <= i < |p|
      ensures Active(p[i], table, author) && Submittable(p[i])
    {
      assert p[i] == s[i] && s[i] in s;
    }
  }

  lemma {:induction false} RunFliesOneBody(retry: Retry, table: nat, author: nat, s: State, events: seq<Event>)
    requires FliesOneBody(s, table, author)
    ensures FliesOneBody(Run(retry, table, author, s, events), table, author)
    decreases |events|
  {
    if events != [] {
      if events[0].EffectRun? && Plan(s.queue, table, author) != [] {
        PlanIsOneBody(s.queue, table, author);
      }
      RunFliesOneBody(retry, table, author, Step(retry, table, author, s, events[0]), events[1..]);
    }
  }

  /** Over every run, whatever is in flight is one body of this table's and identity's own submittable moves. */
  lemma EveryFlightIsOneBody(retry: Retry, table: nat, author: nat, events: seq<Event>)
    ensures FliesOneBody(Run(retry, table, author, START, events), table, author)
  {
    RunFliesOneBody(retry, table, author, START, events);
  }

  /** Submissions failed since one last succeeded, after `k` before the run. */
  ghost function Streak(retry: Retry, table: nat, author: nat, s: State, k: nat, events: seq<Event>): nat
    decreases |events|
  {
    if events == [] then k
    else
      var pending := s.flight.Some? && s.flight.value.phase.Submitting?;
      var now := if pending && events[0].SubmitOk? then 0 else if pending && events[0].SubmitFailed? then k + 1 else k;
      Streak(retry, table, author, Step(retry, table, author, s, events[0]), now, events[1..])
  }

  /** Two seconds, doubled for each further failure, a minute at most. */
  ghost function Wait(k: nat): nat {
    if k == 0 then 0 else Min(2_000 * Pow2(k - 1), 60_000)
  }

  lemma WaitDoubles(k: nat)
    ensures NextBackoff(Wait(k)) == Wait(k + 1)
  {
    if k > 0 {
      assert Pow2(k) == 2 * Pow2(k - 1);
    } else {
      assert Pow2(0) == 1;
    }
  }

  lemma {:induction false} BackoffFollowsStreak(retry: Retry, table: nat, author: nat, s: State, k: nat, events: seq<Event>)
    requires s.backoff == Wait(k)
    ensures Run(retry, table, author, s, events).backoff == Wait(Streak(retry, table, author, s, k, events))
    decreases |events|
  {
    if events != [] {
      var pending := s.flight.Some? && s.flight.value.phase.Submitting?;
      var now := if pending && events[0].SubmitOk? then 0 else if pending && events[0].SubmitFailed? then k + 1 else k;
      WaitDoubles(k);
      BackoffFollowsStreak(retry, table, author, Step(retry, table, author, s, events[0]), now, events[1..]);
    }
  }

  /** Over every run the wait before a retry is the one the failures in a row call for. */
  lemma EveryWaitIsDue(retry: Retry, table: nat, author: nat, events: seq<Event>)
    ensures Run(retry, table, author, START, events).backoff == Wait(Streak(retry, table, author, START, 0, events))
  {
    BackoffFollowsStreak(retry, table, author, START, 0, events);
  }

  // ------------------------------------------------------------------ when a flight starts and ends

  /**
   A flight starts only when the effect is due, the page is ready and something may
   be sent; it ends when its submission fails, when it succeeds after a newer run of
   the effect superseded it, or when the refresh after a success is done.
   */
  lemma FlightLife(retry: Retry, table: nat, author: nat, s: State, e: Event)
    requires s.sending <==> s.flight.Some?
    ensures var t := Step(retry, table, author, s, e);
            && (s.flight.None? ==>
                  (t.flight.Some? <==> e.EffectRun? && s.scheduled && s.ready && exists m :: m in s.queue && Sendable(m, table, author)))
            && (s.flight.Some? ==>
                  (t.flight.None? <==> var f := s.flight.value;
                                       || (f.phase.Submitting? && (e.SubmitFailed? || (e.SubmitOk? && f.cancelled)))
                                       || (f.phase.Refreshing? && e.RefreshDone?)))
  {
    if e.EffectRun? {
      EmptyPlan(s.queue, table, author);
    }
  }

  /** A flight keeps its moves to the end, is superseded by the next run of the effect and by nothing else. */
  lemma FlightKeepsMoves(retry: Retry, table: nat, author: nat, s: State, e: Event)
    requires s.flight.Some? && s.sending && Step(retry, table, author, s, e).flight.Some?
    ensures var f, g := s.flight.value, Step(retry, table, author, s, e).flight.value;
            && g.taken == f.taken && (g.cancelled <==> f.cancelled || (e.EffectRun? && s.scheduled))
            && (g.phase.Refreshing? <==> f.phase.Refreshing? || e.SubmitOk?)
  {
  }

  /** Retiring drops exactly the named entries, keeps the order, and wakes the effect if it dropped any. */
  lemma RetireDrops(retry: Retry, table: nat, author: nat, s: State, gone: set<nat>)
    requires Rising(s.queue)
    ensures var t := Step(retry, table, author, s, Retire(gone));
            && Rising(t.queue) && (forall m :: m in t.queue <==> m in s.queue && m.id !in gone)
            && (t.scheduled <==> s.scheduled || exists m :: m in s.queue && m.id in gone)
            && t == s.(queue := t.queue, scheduled := t.scheduled)
  {
    WithoutIs(s.queue, gone);
    WithoutKeepsOrder(s.queue, gone);
    var q := Without(s.queue, gone);
    if |q| == |s.queue| {
      assert forall m <- s.queue :: m in q;
    } else if forall m <- s.queue :: m.id !in gone {
      WithoutNothing(s.queue, gone);
    }
  }

  lemma {:induction false} WithoutNothing(q: Queue, gone: set<nat>)
    requires forall m <- q :: m.id !in gone
    ensures Without(q, gone) == q
    decreases |q|
  {
    if q != [] {
      assert q[0] in q;
      WithoutNothing(q[1..], gone);
    }
  }

  // ------------------------------------------------------------------ work can always go out

  /** What the network and the runtime do by themselves. */
  ghost predicate OfItself(events: seq<Event>) {
    forall i | 0 <= i < |events| ::
      events[i].EffectRun? || events[i].TimerFires? || events[i].RefreshDone? || events[i].SubmitOk?
  }

  lemma RunOne(table: nat, author: nat, s: State, e: Event)
    ensures Run(Always, table, author, s, [e]) == Step(Always, table, author, s, e)
  {
    assert [e][1..] == [] && Run(Always, table, author, Step(Always, table, author, s, e), []) == Step(Always, table, author, s, e);
  }

  lemma RunMore(table: nat, author: nat, s: State, e: Event, rest: seq<Event>)
    ensures Run(Always, table, author, s, [e] + rest) == Run(Always, table, author, Step(Always, table, author, s, e), rest)
  {
    assert ([e] + rest)[1..] == rest;
  }

  lemma AckGrows(table: nat, author: nat, s: State)
    requires s.flight.Some? && s.flight.value.phase.Submitting? && s.flight.value.taken != []
    ensures |Step(Always, table, author, s, SubmitOk(0)).acked| > |s.acked|
  {
    IdsIs(s.flight.value.taken);
  }

  /** A due effect on an idle page with work sends it, and the acknowledgement can come. */
  lemma DueWorkGoesOut(table: nat, author: nat, s: State) returns (events: seq<Event>)
    requires s.scheduled && s.flight.None? && !s.sending && HasWork(s, table, author)
    ensures |events| == 2 && OfItself(events) && |Run(Always, table, author, s, events).acked| > |s.acked|
  {
    EmptyPlan(s.queue, table, author);
    var t := Step(Always, table, author, s, EffectRun);
    AckGrows(table, author, t);
    events := [EffectRun] + [SubmitOk(0)];
    RunMore(table, author, s, EffectRun, [SubmitOk(0)]);
    RunOne(table, author, t, SubmitOk(0));
  }

  lemma IdleWorkGoesOut(table: nat, author: nat, s: State) returns (events: seq<Event>)
    requires Lively(s, table, author) && s.flight.None? && HasWork(s, table, author)
    ensures |events| <= 3 && OfItself(events) && |Run(Always, table, author, s, events).acked| > |s.acked|
  {
    if s.scheduled {
      events := DueWorkGoesOut(table, author, s);
    } else {
      var rest := DueWorkGoesOut(table, author, Step(Always, table, author, s, TimerFires));
      events := [TimerFires] + rest;
      RunMore(table, author, s, TimerFires, rest);
    }
  }

  /**
   In every reachable state with work, the runtime and the network can get a move
   acknowledged in at most four events of their own: nothing the player does is needed.
   */
  lemma WorkCanGoOut(table: nat, author: nat, before: seq<Event>) returns (events: seq<Event>)
    requires HasWork(Run(Always, table, author, START, before), table, author)
    ensures |events| <= 4 && OfItself(events)
    ensures var s := Run(Always, table, author, START, before);
            |Run(Always, table, author, s, events).acked| > |s.acked|
  {
    var s := Run(Always, table, author, START, before);
    EveryRunIsLively(table, author, before);
    RunKeepsOrder(table, author, START, before);
    if s.flight.None? {
      events := IdleWorkGoesOut(table, author, s);
    } else if s.flight.value.phase.Submitting? {
      AckGrows(table, author, s);
      events := [SubmitOk(0)];
      RunOne(table, author, s, SubmitOk(0));
    } else {
      var t := Step(Always, table, author, s, RefreshDone);
      var rest := DueWorkGoesOut(table, author, t);
      events := [RefreshDone] + rest;
      RunMore(table, author, s, RefreshDone, rest);
    }
  }
}

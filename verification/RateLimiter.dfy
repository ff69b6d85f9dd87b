/**
 The token-bucket limiter of the mobile sync benchmark (benches/mobile_sync.rs),
 driven from one thread. Time is a number of nanoseconds that only grows; a sleep
 lasts at least as long as asked.
 */
module RateLimiter {
  import opened Wrappers

  const SECOND: nat := 1_000_000_000
  const POLL: nat := 100_000

  /** Tokens in the bucket, when they were last refilled, and the bytes granted since a start. */
  datatype Bucket = Bucket(tokens: nat, last: nat, granted: nat)

  function Earned(rate: nat, elapsed: nat): nat {
    rate * elapsed / SECOND
  }

  /** Adds what the elapsed time earned, up to one second's worth; too short a time leaves the clock alone. */
  function Refill(b: Bucket, rate: nat, now: nat): Bucket
    requires b.last <= now
  {
    var add := Earned(rate, now - b.last);
    if add > 0 then b.(tokens := Min(b.tokens + add, rate), last := now) else b
  }

  /** Takes what is there, up to what is wanted. */
  function Take(b: Bucket, want: nat): Bucket {
    var take := Min(b.tokens, want);
    b.(tokens := b.tokens - take, granted := b.granted + take)
  }

  /** Never more in the bucket than the rate, and never more granted than one burst plus the time passed allows. */
  ghost predicate Within(b: Bucket, rate: nat, start: nat) {
    && b.tokens <= rate && start <= b.last
    && (b.granted + b.tokens) * SECOND <= rate * (SECOND + (b.last - start))
  }

  lemma EarnedIsFloor(rate: nat, elapsed: nat)
    ensures Earned(rate, elapsed) * SECOND <= rate * elapsed < (Earned(rate, elapsed) + 1) * SECOND
  {
  }

  lemma RefillKeepsWithin(b: Bucket, rate: nat, start: nat, now: nat)
    requires Within(b, rate, start) && b.last <= now
    ensures Within(Refill(b, rate, now), rate, start) && Refill(b, rate, now).granted == b.granted
  {
    var add := Earned(rate, now - b.last);
    EarnedIsFloor(rate, now - b.last);
    assert rate * (SECOND + (now - start)) == rate * (SECOND + (b.last - start)) + rate * (now - b.last);
    assert (b.granted + b.tokens + add) * SECOND == (b.granted + b.tokens) * SECOND + add * SECOND;
  }

  /**
   A refill keeps the tokens there are and adds what the time since the last one
   earned, rounded down and up to a second's worth; with less than a token earned
   the time goes on counting.
   */
  lemma RefillAdds(b: Bucket, rate: nat, now: nat) returns (earned: nat)
    requires b.tokens <= rate && b.last <= now
    ensures earned * SECOND <= rate * (now - b.last) < (earned + 1) * SECOND
    ensures var r := Refill(b, rate, now);
            && b.tokens <= r.tokens <= rate && (r.tokens == b.tokens + earned || (r.tokens == rate && b.tokens + earned > rate))
            && r.last == (if earned == 0 then b.last else now) && r.granted == b.granted
  {
    earned := Earned(rate, now - b.last);
    EarnedIsFloor(rate, now - b.last);
  }

  /** A take moves tokens to the account, no more than wanted, and stops short only when the bucket is empty. */
  lemma TakeMoves(b: Bucket, want: nat)
    ensures var r := Take(b, want);
            && r.tokens + r.granted == b.tokens + b.granted && b.granted <= r.granted <= b.granted + want
            && (r.granted == b.granted + want || r.tokens == 0) && r.last == b.last
  {
  }

  lemma TakeKeepsWithin(b: Bucket, rate: nat, start: nat, want: nat)
    requires Within(b, rate, start)
    ensures Within(Take(b, want), rate, start)
  {
  }

  /** By any later time, the bytes granted are at most the rate times one second more than has passed. */
  lemma GrantedByTime(b: Bucket, rate: nat, start: nat, now: nat)
    requires Within(b, rate, start) && b.last <= now
    ensures b.granted * SECOND <= rate * (SECOND + (now - start))
  {
    assert rate * (SECOND + (now - start)) == rate * (SECOND + (b.last - start)) + rate * (now - b.last);
    assert (b.granted + b.tokens) * SECOND == b.granted * SECOND + b.tokens * SECOND;
  }

  /** The time an empty poll can still wait for its first token. */
  ghost function Patience(b: Bucket, now: nat): nat {
    if b.last <= now < b.last + SECOND then b.last + SECOND - now else 0
  }

  /** A poll that gets nothing has passed less than a second since the last refill. */
  lemma EmptyPollIsRecent(b: Bucket, rate: nat, now: nat, want: nat)
    requires b.last <= now && rate > 0 && want > 0 && Take(Refill(b, rate, now), want).granted == b.granted
    ensures Refill(b, rate, now) == b && b.tokens == 0 && now - b.last < SECOND
  {
    var add := Earned(rate, now - b.last);
    EarnedIsFloor(rate, now - b.last);
    assert rate * (now - b.last) >= now - b.last;
  }

  class SimpleRateLimiter {
    const rate: nat
    var bucket: Bucket
    var clock: nat
    ghost var start: nat

    ghost predicate Valid()
      reads this
    {
      Within(bucket, rate, start) && bucket.last <= clock
    }

    constructor (rate: nat, now: nat)
      ensures Valid() && this.rate == rate && clock == now && start == now && bucket == Bucket(rate, now, 0)
    {
      this.rate, clock, start, bucket := rate, now, now, Bucket(rate, now, 0);
    }

    /** Refills to one full second and starts the account afresh. */
    method Reset()
      requires Valid()
      modifies this
      ensures Valid() && bucket.granted == 0 && bucket.tokens == rate && start == clock >= old(clock)
    {
      Elapse(0);
      bucket, start := Bucket(rate, clock, 0), clock;
    }

    /** Time passes, by at least `least`. */
    method Elapse(least: nat)
      modifies this`clock
      ensures clock >= old(clock) + least
    {
      var passed :| passed >= least;
      clock := clock + passed;
    }

    method Poll(needed: nat) returns (left: nat)
      requires Valid()
      modifies this`bucket
      ensures Valid() && bucket == Take(Refill(old(bucket), rate, clock), needed)
      ensures left + bucket.granted == needed + old(bucket).granted
    {
      RefillKeepsWithin(bucket, rate, start, clock);
      var add := Earned(rate, clock - bucket.last);
      if add > 0 {
        bucket := bucket.(tokens := Min(bucket.tokens + add, rate), last := clock);
      }
      TakeKeepsWithin(bucket, rate, start, needed);
      var take := Min(bucket.tokens, needed);
      left := needed;
      if take > 0 {
        bucket := bucket.(tokens := bucket.tokens - take, granted := bucket.granted + take);
        left := left - take;
      }
    }

    /** Returns once exactly the bytes asked for have been removed; it always returns when any rate is set. */
    method WaitForTokens(bytes: nat)
      requires Valid() && (rate > 0 || bytes == 0)
      modifies this`bucket, this`clock
      ensures Valid() && bucket.granted == old(bucket).granted + bytes && clock >= old(clock)
    {
      Elapse(0);
      var needed := bytes;
      while true
        invariant Valid() && clock >= old(clock) && (rate > 0 || needed == 0)
        invariant bucket.granted + needed == old(bucket).granted + bytes
        decreases needed, Patience(bucket, clock)
      {
        ghost var was := bucket;
        var before := needed;
        needed := Poll(needed);
        if needed == 0 {
          return;
        }
        if needed == before {
          EmptyPollIsRecent(was, rate, clock, needed);
        }
        Elapse(POLL);
      }
    }

    /** The chunked loops: exactly the total is moved, within the rate. */
    method Transfer(total: nat, chunkSize: nat) returns (transferred: nat)
      requires Valid() && rate > 0 && (chunkSize > 0 || total == 0)
      modifies this
      ensures Valid() && transferred == total && bucket.granted == total
      ensures old(clock) <= start <= clock && total * SECOND <= rate * (SECOND + (clock - start))
    {
      Reset();
      transferred := 0;
      while transferred < total
        invariant Valid() && transferred <= total && bucket.granted == transferred && old(clock) <= start <= clock
      {
        var chunk := Min(chunkSize, total - transferred);
        WaitForTokens(chunk);
        transferred := transferred + chunk;
      }
      GrantedByTime(bucket, rate, start, clock);
    }
  }

  // ------------------------------------------------------ discarding partials

  /** A poll that empties the bucket instead of counting a partial amount. */
  function DiscardingPoll(b: Bucket, rate: nat, now: nat, bytes: nat): Bucket
    requires b.last <= now
  {
    var r := Refill(b, rate, now);
    if r.tokens >= bytes then Take(r, bytes) else r.(tokens := 0)
  }

  function DiscardingRun(b: Bucket, rate: nat, bytes: nat, sleeps: seq<nat>, now: nat): Bucket
    requires b.last <= now
    decreases |sleeps|
  {
    if sleeps == [] then b
    else DiscardingRun(DiscardingPoll(b, rate, now + sleeps[0], bytes), rate, bytes, sleeps[1..], now + sleeps[0])
  }

  lemma DiscardingPollGetsNothing(b: Bucket, rate: nat, bytes: nat, sleep: nat, now: nat)
    requires b.last <= now && b.tokens == 0 && rate * (now - b.last) < SECOND
    requires bytes > 0 && rate * sleep <= (bytes - 1) * SECOND
    ensures var r := DiscardingPoll(b, rate, now + sleep, bytes);
            r.granted == b.granted && r.tokens == 0 && r.last <= now + sleep && rate * (now + sleep - r.last) < SECOND
  {
    var elapsed := now + sleep - b.last;
    assert rate * elapsed == rate * (now - b.last) + rate * sleep;
    EarnedIsFloor(rate, elapsed);
    assert Earned(rate, elapsed) < bytes;
  }

  /** Discarding partial amounts grants nothing for ever once no single sleep earns a whole request. */
  lemma {:induction false} DiscardingNeverReturns(b: Bucket, rate: nat, bytes: nat, sleeps: seq<nat>, now: nat)
    requires b.last <= now && b.tokens == 0 && rate * (now - b.last) < SECOND && bytes > 0
    requires forall i | 0 <= i < |sleeps| :: rate * sleeps[i] <= (bytes - 1) * SECOND
    ensures DiscardingRun(b, rate, bytes, sleeps, now).granted == b.granted
    decreases |sleeps|
  {
    if sleeps != [] {
      DiscardingPollGetsNothing(b, rate, bytes, sleeps[0], now);
      forall i | 0 <= i < |sleeps[1..]|
        ensures rate * sleeps[1..][i] <= (bytes - 1) * SECOND
      {
        assert sleeps[1..][i] == sleeps[i + 1];
      }
      DiscardingNeverReturns(DiscardingPoll(b, rate, now + sleeps[0], bytes), rate, bytes, sleeps[1..], now + sleeps[0]);
    }
  }
}

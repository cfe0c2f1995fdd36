/**
 The token bucket that limits anchoring: a read-only admission check first, and
 the token spent only after the anchor has been written. Proves how many anchors
 any time window can hold, over every sequence of attempts.
 */
module RateLimiter {
  import opened Arithmetic
  import opened Prelude

  datatype Config = Config(burst: nat, interval: nat) {
    /** A limit that is switched on. */
    predicate Active() {
      0 < burst && 0 < interval
    }
  }

  datatype Bucket = Bucket(tokens: nat, lastRefill: nat)

  /** Add one token per whole interval since the last refill, capped at the burst. */
  function Refill(c: Config, b: Bucket, now: nat): Bucket
    requires c.Active()
  {
    var elapsed := SatSub(now, b.lastRefill);
    if elapsed >= c.interval then Bucket(Min(b.tokens + elapsed / c.interval, c.burst), now) else b
  }

  /** A missing bucket counts as full. */
  function Loaded(c: Config, stored: Option<Bucket>, now: nat): Bucket {
    match stored
    case None => Bucket(c.burst, now)
    case Some(b) => b
  }

  predicate Admitted(c: Config, stored: Option<Bucket>, now: nat)
    requires c.Active()
  {
    Refill(c, Loaded(c, stored, now), now).tokens != 0
  }

  function Consumed(c: Config, stored: Option<Bucket>, now: nat): Bucket
    requires c.Active()
  {
    var b := Refill(c, Loaded(c, stored, now), now);
    b.(tokens := SatSub(b.tokens, 1))
  }

  // ---- runs ----

  /** One call to `anchor_batch`; `writes` says whether the anchor itself goes through. */
  datatype Attempt = Attempt(time: nat, writes: bool)

  predicate Chronological(log: seq<Attempt>) {
    forall i, j :: 0 <= i < j < |log| ==> log[i].time <= log[j].time
  }

  /** The stored bucket after a run: only an accepted anchor writes it. */
  function BucketAfter(c: Config, log: seq<Attempt>): Option<Bucket>
    requires c.Active()
  {
    if log == [] then None
    else
      var before, last := BucketAfter(c, log[..|log| - 1]), log[|log| - 1];
      if last.writes && Admitted(c, before, last.time) then Some(Consumed(c, before, last.time)) else before
  }

  predicate LastAccepted(c: Config, log: seq<Attempt>)
    requires c.Active() && log != []
  {
    var last := log[|log| - 1];
    last.writes && Admitted(c, BucketAfter(c, log[..|log| - 1]), last.time)
  }

  /** Accepted anchors with a timestamp in `[a, b]`. */
  function AcceptedIn(c: Config, log: seq<Attempt>, a: int, b: int): nat
    requires c.Active()
  {
    if log == [] then 0
    else
      AcceptedIn(c, log[..|log| - 1], a, b) +
      if a <= log[|log| - 1].time <= b && LastAccepted(c, log) then 1 else 0
  }

  lemma DivAdd(x: nat, y: nat, d: nat)
    requires d > 0
    ensures x / d + y / d <= (x + y) / d
  {
    var p, q, r := x / d, y / d, (x + y) / d;
    assert x >= p * d && y >= q * d && x + y < r * d + d;
    if p + q > r {
      MulOrder(r + 1, p + q, d);
    }
  }

  /**
   A refill grants one token per whole interval since the last one, up to the burst. It
   never takes tokens, leaves less than an interval unaccounted for, discards no time
   while nothing was earned, and refilling again at once changes nothing, which is why
   the two phases of an anchor see the same bucket.
   */
  lemma RefillEarns(c: Config, state: Bucket, now: nat)
    requires c.Active() && state.tokens <= c.burst && state.lastRefill <= now
    ensures var next := Refill(c, state, now);
            && next.tokens == Min(c.burst, state.tokens + (now - state.lastRefill) / c.interval)
            && state.tokens <= next.tokens <= c.burst
            && now - c.interval < next.lastRefill <= now
            && (now - state.lastRefill < c.interval ==> next == state)
            && (now - state.lastRefill >= c.interval ==> next.lastRefill == now)
            && Refill(c, next, now) == next
  {
    QuotientSign(now - state.lastRefill, c.interval);
  }

  /**
   An earning refill starts a new interval at once, and what it had waited beyond the last
   whole interval is lost: after two anchors at 0 and one at 15, a limit of two with one more
   every 10 refuses an anchor at 20, although it has earned two by then.
   */
  lemma RemainderIsLost(c: Config)
    requires c == Config(2, 10)
    ensures !Admitted(c, BucketAfter(c, [Attempt(0, true), Attempt(0, true), Attempt(15, true)]), 20)
    ensures Admitted(c, BucketAfter(c, [Attempt(0, true), Attempt(0, true), Attempt(15, true)]), 25)
  {
    var one, two := [Attempt(0, true)], [Attempt(0, true), Attempt(0, true)];
    var three := two + [Attempt(15, true)];
    assert one[..0] == [] && two[..1] == one && three[..2] == two;
    assert BucketAfter(c, one) == Some(Bucket(1, 0));
    assert BucketAfter(c, two) == Some(Bucket(0, 0));
    assert BucketAfter(c, three) == Some(Bucket(0, 15));
  }

  lemma QuotientSign(x: nat, d: nat)
    requires d > 0
    ensures 0 <= x / d && (x < d ==> x / d == 0)
  {
    QuotientBounds(x, d);
    MulOrder(x / d + 1, 0, d);
    MulOrder(1, x / d, d);
  }

  /** The stored bucket always has room for a token, and was not refilled in the future. */
  lemma {:induction false} BucketBounds(c: Config, log: seq<Attempt>)
    requires c.Active() && Chronological(log)
    ensures var b := BucketAfter(c, log);
            b.Some? ==> log != [] && b.value.tokens < c.burst && b.value.lastRefill <= log[|log| - 1].time
  {
    if log != [] {
      var prefix := log[..|log| - 1];
      BucketBounds(c, prefix);
      assert prefix != [] ==> prefix[|prefix| - 1].time <= log[|log| - 1].time;
    }
  }

  /** What spending one token does to the bucket, given how much it could have earned. */
  lemma ConsumedBounds(c: Config, stored: Option<Bucket>, now: nat)
    requires c.Active() && Admitted(c, stored, now)
    requires stored.Some? ==> stored.value.tokens < c.burst && stored.value.lastRefill <= now
    ensures var b := Consumed(c, stored, now);
            && b.tokens + 1 <= c.burst && now - c.interval < b.lastRefill <= now
            && (stored.Some? ==>
                  b.tokens + 1 <= stored.value.tokens + (b.lastRefill - stored.value.lastRefill) / c.interval)
            && (stored.Some? ==> stored.value.lastRefill <= b.lastRefill)
            && (b.lastRefill == now || b.tokens + 2 <= c.burst)
  {
    assert 0 / c.interval == 0;
  }

  /** Tokens left plus anchors accepted since `a` never exceed what the bucket could have held and earned. */
  lemma {:induction false} Potential(c: Config, log: seq<Attempt>, a: nat, b: nat)
    requires c.Active() && Chronological(log) && forall i :: 0 <= i < |log| ==> log[i].time <= b
    ensures AcceptedIn(c, log, a, b) > 0 ==>
              && BucketAfter(c, log).Some?
              && var bucket := BucketAfter(c, log).value;
                 var window := bucket.lastRefill - a + c.interval;
                 && 0 <= window && bucket.lastRefill <= b
                 && AcceptedIn(c, log, a, b) + bucket.tokens + 1 <= c.burst + window / c.interval
  {
    if log != [] {
      var prefix, now := log[..|log| - 1], log[|log| - 1].time;
      Potential(c, prefix, a, b);
      if LastAccepted(c, log) {
        var stored := BucketAfter(c, prefix);
        BucketBounds(c, prefix);
        ConsumedBounds(c, stored, now);
        if AcceptedIn(c, prefix, a, b) > 0 {
          assert now >= a by { SomeAccepted(c, prefix, a, b, now); }
          DivAdd(stored.value.lastRefill - a + c.interval,
                 Consumed(c, stored, now).lastRefill - stored.value.lastRefill, c.interval);
        } else if now >= a {
          FirstAccepted(c, Consumed(c, stored, now), a, now);
        }
      }
    }
  }

  /** The first anchor of a window leaves a bucket with one token less than the window may yet grant. */
  lemma FirstAccepted(c: Config, bucket: Bucket, a: nat, now: nat)
    requires c.Active() && a <= now && now - c.interval < bucket.lastRefill <= now
    requires bucket.tokens + 1 <= c.burst && (bucket.lastRefill == now || bucket.tokens + 2 <= c.burst)
    ensures bucket.tokens + 2 <= c.burst + (bucket.lastRefill - a + c.interval) / c.interval
  {
    var window := bucket.lastRefill - a + c.interval;
    if bucket.lastRefill == now {
      DivMonotone(c.interval, window, c.interval);
      assert c.interval / c.interval == 1;
    } else {
      DivMonotone(0, window, c.interval);
      assert 0 / c.interval == 0;
    }
  }

  lemma {:induction false} SomeAccepted(c: Config, log: seq<Attempt>, a: nat, b: nat, now: nat)
    requires c.Active() && AcceptedIn(c, log, a, b) > 0 && forall i :: 0 <= i < |log| ==> log[i].time <= now
    ensures a <= now
  {
    if !(a <= log[|log| - 1].time <= b && LastAccepted(c, log)) {
      SomeAccepted(c, log[..|log| - 1], a, b, now);
    }
  }

  /**
   The counting bound: with a constant limit, any window `[a, b]` of any run holds at most
   the burst plus one anchor per whole interval in the window.
   */
  lemma {:induction false} WindowBound(c: Config, log: seq<Attempt>, a: nat, b: nat)
    requires c.Active() && Chronological(log) && a <= b
    ensures AcceptedIn(c, log, a, b) <= c.burst + (b - a) / c.interval
  {
    if log != [] && log[|log| - 1].time > b {
      WindowBound(c, log[..|log| - 1], a, b);
    } else {
      Potential(c, log, a, b);
      DivShift(1, b - a, c.interval);
      DivMonotone(0, b - a, c.interval);
      assert 0 / c.interval == 0;
      if AcceptedIn(c, log, a, b) > 0 {
        DivMonotone(BucketAfter(c, log).value.lastRefill - a + c.interval, b - a + c.interval, c.interval);
      }
    }
  }

  // ---- the bound is reached ----

  /** A whole burst at time `t`. */
  lemma {:induction false} BurstAtOnce(c: Config, t: nat, n: nat, b: nat)
    requires c.Active() && n <= c.burst && t <= b
    ensures var log := seq(n, _ => Attempt(t, true));
            && AcceptedIn(c, log, t, b) == n
            && BucketAfter(c, log) == if n == 0 then None else Some(Bucket(c.burst - n, t))
    decreases n
  {
    var log := seq(n, _ => Attempt(t, true));
    if n > 0 {
      BurstAtOnce(c, t, n - 1, b);
      assert log[..n - 1] == seq(n - 1, _ => Attempt(t, true));
    }
  }

  /** The end of the `n`-th interval after `t`. */
  function IntervalEnd(c: Config, t: nat, n: nat): nat {
    if n == 0 then t else IntervalEnd(c, t, n - 1) + c.interval
  }

  lemma {:induction false} IntervalEndIs(c: Config, t: nat, n: nat)
    ensures IntervalEnd(c, t, n) == t + n * c.interval
    decreases n
  {
    if n > 0 {
      IntervalEndIs(c, t, n - 1);
      assert n * c.interval == (n - 1) * c.interval + c.interval;
    }
  }

  /** A burst at `t`, then one anchor at the end of each of `n` intervals. */
  function Steady(c: Config, t: nat, n: nat): seq<Attempt> {
    if n == 0 then seq(c.burst, _ => Attempt(t, true))
    else Steady(c, t, n - 1) + [Attempt(IntervalEnd(c, t, n), true)]
  }

  /** An empty bucket earns exactly one token in exactly one interval. */
  lemma OneIntervalLater(c: Config, last: nat)
    requires c.Active()
    ensures var now := last + c.interval;
            Admitted(c, Some(Bucket(0, last)), now) && Consumed(c, Some(Bucket(0, last)), now) == Bucket(0, now)
  {
    assert c.interval / c.interval == 1;
  }

  lemma {:induction false} SteadyAccepted(c: Config, t: nat, n: nat, b: nat)
    requires c.Active() && IntervalEnd(c, t, n) <= b
    ensures t <= IntervalEnd(c, t, n) && AcceptedIn(c, Steady(c, t, n), t, b) == c.burst + n
    ensures BucketAfter(c, Steady(c, t, n)) == Some(Bucket(0, IntervalEnd(c, t, n)))
    decreases n
  {
    if n == 0 {
      BurstAtOnce(c, t, c.burst, b);
    } else {
      SteadyAccepted(c, t, n - 1, b);
      OneMoreAccepted(c, Steady(c, t, n - 1), t, b, IntervalEnd(c, t, n - 1));
    }
  }

  lemma {:induction false} SteadyInOrder(c: Config, t: nat, n: nat)
    ensures Chronological(Steady(c, t, n))
    ensures forall i :: 0 <= i < |Steady(c, t, n)| ==> Steady(c, t, n)[i].time <= IntervalEnd(c, t, n)
    decreases n
  {
    if n > 0 {
      SteadyInOrder(c, t, n - 1);
    }
  }

  lemma OneMoreAccepted(c: Config, log: seq<Attempt>, t: nat, b: nat, last: nat)
    requires c.Active() && BucketAfter(c, log) == Some(Bucket(0, last)) && t <= last && last + c.interval <= b
    ensures var longer := log + [Attempt(last + c.interval, true)];
            && BucketAfter(c, longer) == Some(Bucket(0, last + c.interval))
            && AcceptedIn(c, longer, t, b) == AcceptedIn(c, log, t, b) + 1
  {
    OneIntervalLater(c, last);
    var longer := log + [Attempt(last + c.interval, true)];
    assert longer[..|longer| - 1] == log;
  }

  /** For every window there is a run that fills the bound of `WindowBound` exactly. */
  lemma WindowBoundReached(c: Config, a: nat, b: nat)
    requires c.Active() && a <= b
    ensures var log := Steady(c, a, (b - a) / c.interval);
            Chronological(log) && AcceptedIn(c, log, a, b) == c.burst + (b - a) / c.interval
  {
    QuotientBounds(b - a, c.interval);
    DivMonotone(0, b - a, c.interval);
    assert 0 / c.interval == 0;
    IntervalEndIs(c, a, (b - a) / c.interval);
    SteadyInOrder(c, a, (b - a) / c.interval);
    SteadyAccepted(c, a, (b - a) / c.interval, b);
  }

  /** Time of the last accepted anchor. */
  function LastAcceptedTime(c: Config, log: seq<Attempt>): Option<nat>
    requires c.Active()
  {
    if log == [] then None
    else if LastAccepted(c, log) then Some(log[|log| - 1].time)
    else LastAcceptedTime(c, log[..|log| - 1])
  }

  /**
   A burst of one is the old minimum-interval limiter: an anchor is admitted exactly
   when none was accepted before, or a whole interval has passed since the last one.
   */
  lemma {:induction false} BurstOfOne(c: Config, log: seq<Attempt>, now: nat)
    requires c.Active() && c.burst == 1 && Chronological(log) && (log != [] ==> log[|log| - 1].time <= now)
    ensures Admitted(c, BucketAfter(c, log), now) <==>
              (LastAcceptedTime(c, log).None? || now - LastAcceptedTime(c, log).value >= c.interval)
  {
    SingleToken(c, log);
    var t := LastAcceptedTime(c, log);
    if t.Some? {
      if now - t.value >= c.interval {
        DivMonotone(c.interval, now - t.value, c.interval);
        assert c.interval / c.interval == 1;
      }
    }
  }

  lemma {:induction false} SingleToken(c: Config, log: seq<Attempt>)
    requires c.Active() && c.burst == 1 && Chronological(log)
    ensures BucketAfter(c, log) == match LastAcceptedTime(c, log) case None => None case Some(t) => Some(Bucket(0, t))
    ensures LastAcceptedTime(c, log).Some? ==> log != [] && LastAcceptedTime(c, log).value <= log[|log| - 1].time
  {
    if log != [] {
      var prefix := log[..|log| - 1];
      SingleToken(c, prefix);
      assert prefix != [] ==> prefix[|prefix| - 1].time <= log[|log| - 1].time;
    }
  }

  /** What one more attempt adds to a run. */
  lemma OneMoreAttempt(c: Config, log: seq<Attempt>, a: Attempt)
    requires c.Active() && Chronological(log) && (log != [] ==> log[|log| - 1].time <= a.time)
    ensures var before, longer := BucketAfter(c, log), log + [a];
            && Chronological(longer)
            && (LastAccepted(c, longer) <==> a.writes && Admitted(c, before, a.time))
            && BucketAfter(c, longer) == if LastAccepted(c, longer) then Some(Consumed(c, before, a.time)) else before
  {
    StillChronological(log, a);
    BucketAfterOne(c, log, a, log + [a]);
  }

  lemma StillChronological(log: seq<Attempt>, a: Attempt)
    requires Chronological(log) && (log != [] ==> log[|log| - 1].time <= a.time)
    ensures Chronological(log + [a])
  {
  }

  lemma BucketAfterOne(c: Config, log: seq<Attempt>, a: Attempt, longer: seq<Attempt>)
    requires c.Active() && longer == log + [a]
    ensures LastAccepted(c, longer) <==> a.writes && Admitted(c, BucketAfter(c, log), a.time)
    ensures BucketAfter(c, longer) ==
            if LastAccepted(c, longer) then Some(Consumed(c, BucketAfter(c, log), a.time)) else BucketAfter(c, log)
  {
    assert longer[..|longer| - 1] == log;
  }

  /** The router's limiter for one merchant, as `anchor_batch_internal` drives it. */
  class AnchorLimiter {
    const config: Config
    var stored: Option<Bucket>
    /** Every attempt so far. */
    ghost var log: seq<Attempt>

    ghost predicate Valid()
      reads this
    {
      config.Active() && Chronological(log) && stored == BucketAfter(config, log)
    }

    constructor (c: Config)
      requires c.Active()
      ensures Valid() && config == c && log == []
    {
      config, stored, log := c, None, [];
    }

    method RefillBucket(state: Bucket, now: nat) returns (next: Bucket)
      requires config.Active()
      ensures next == Refill(config, state, now)
    {
      next := state;
      var elapsed := SatSub(now, next.lastRefill);
      if elapsed >= config.interval {
        var refilled := elapsed / config.interval;
        next := next.(tokens := Min(next.tokens + refilled, config.burst));
        next := next.(lastRefill := now);
      }
    }

    /** Phase one: read-only. */
    method RateLimitAdmitted(now: nat) returns (admitted: bool)
      requires Valid()
      ensures admitted <==> Admitted(config, stored, now)
    {
      var state := if stored.None? then Bucket(config.burst, now) else stored.value;
      state := RefillBucket(state, now);
      admitted := state.tokens != 0;
    }

    /** Phase two: an admitted anchor always finds the token it was promised. */
    method RateLimitConsume(now: nat)
      requires config.Active() && Admitted(config, stored, now)
      modifies this`stored
      ensures stored == Some(Consumed(config, old(stored), now))
      ensures stored.value.tokens + 1 == Refill(config, Loaded(config, old(stored), now), now).tokens
    {
      var state := if stored.None? then Bucket(config.burst, now) else stored.value;
      state := RefillBucket(state, now);
      stored := Some(state.(tokens := SatSub(state.tokens, 1)));
    }

    /** An anchor: refused when rate limited; a token is spent only if the batch is written. */
    method AnchorBatch(now: nat, writes: bool) returns (accepted: bool)
      requires Valid() && (log != [] ==> log[|log| - 1].time <= now)
      modifies this
      ensures Valid() && log == old(log) + [Attempt(now, writes)]
      ensures accepted <==> LastAccepted(config, log)
      ensures !accepted ==> stored == old(stored)
    {
      OneMoreAttempt(config, log, Attempt(now, writes));
      var admitted := RateLimitAdmitted(now);
      accepted := admitted && writes;
      if accepted {
        RateLimitConsume(now);
      }
      log := log + [Attempt(now, writes)];
    }
  }
}

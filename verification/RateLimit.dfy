/**
 The per-key token bucket: tokens are reals, the clock counts nanoseconds and never runs backwards, and waits are
 truncated to whole nanoseconds as the program's durations are. The refusal is status 429 (section 4 of RFC 6585)
 with a Retry-After header (section 10.2.3 of RFC 9110).
 */
module RateLimit {

  const NANOS := 1_000_000_000

  datatype Bucket = Bucket(tokens: real, lastRefill: int)

  /** An enabled limiter: NewRateLimit clamps the burst to at least one and is the identity for rps <= 0. */
  datatype Limits = Limits(rps: real, burst: int) {
    predicate Valid() {
      rps > 0.0 && burst >= 1
    }
    function Capacity(): real {
      burst as real
    }
  }

  function NewLimits(rps: real, burst: int): (l: Limits)
    ensures rps > 0.0 ==> l.Valid()
    ensures l.rps == rps && l.burst >= burst && (burst >= 1 ==> l.burst == burst)
  {
    Limits(rps, if burst < 1 then 1 else burst)
  }

  /** Tokens earned in dt nanoseconds. */
  function Gain(l: Limits, dt: int): real {
    (dt as real) / (NANOS as real) * l.rps
  }

  /** rps tokens a second, a second being 10^9 nanoseconds. */
  lemma GainIs(l: Limits, dt: int)
    ensures Gain(l, dt) == l.rps * (dt as real / 1_000_000_000.0)
  {
  }

  lemma GainAdds(l: Limits, a: int, b: int)
    ensures Gain(l, a + b) == Gain(l, a) + Gain(l, b)
  {
    var n := NANOS as real;
    assert ((a + b) as real) / n == (a as real) / n + (b as real) / n;
  }

  lemma GainSign(l: Limits, a: int)
    requires l.Valid()
    ensures a >= 0 ==> Gain(l, a) >= 0.0
    ensures a > 0 ==> Gain(l, a) > 0.0
    ensures a == 0 ==> Gain(l, a) == 0.0
  {
    var x := (a as real) / (NANOS as real);
    assert a > 0 ==> x > 0.0;
    assert x > 0.0 ==> x * l.rps > 0.0;
  }

  function MinReal(a: real, b: real): real {
    if a < b then a else b
  }

  // ---------------------------------------------------------------------------------------------
  // One call
  // ---------------------------------------------------------------------------------------------

  function Refilled(l: Limits, b: Bucket, now: int): Bucket {
    if now > b.lastRefill then Bucket(MinReal(b.tokens + Gain(l, now - b.lastRefill), l.Capacity()), now) else b
  }

  /** Exact nanoseconds until one token is there. */
  function ExactWait(l: Limits, tokens: real): real
    requires l.Valid()
  {
    (NANOS as real) * (1.0 - tokens) / l.rps
  }

  datatype Verdict = Admitted | Refused(wait: int)

  datatype Outcome = Outcome(bucket: Bucket, verdict: Verdict)

  function Take(l: Limits, b: Bucket, now: int): Outcome
    requires l.Valid()
  {
    var r := Refilled(l, b, now);
    if r.tokens >= 1.0 then Outcome(r.(tokens := r.tokens - 1.0), Admitted)
    else Outcome(r, Refused(ExactWait(l, r.tokens).Floor))
  }

  type Buckets = map<string, Bucket>

  /** bucketFor: a missing key gets a full bucket. */
  function BucketFor(l: Limits, buckets: Buckets, key: string, created: int): Bucket {
    if key in buckets then buckets[key] else Bucket(l.Capacity(), created)
  }

  class RateLimiter {
    const limits: Limits
    var buckets: Buckets

    constructor (rps: real, burst: int)
      requires rps > 0.0
      ensures limits == NewLimits(rps, burst) && limits.Valid() && buckets == map[]
    {
      limits := NewLimits(rps, burst);
      buckets := map[];
    }

    /** `created` and `now` are the two clock readings of the call. */
    method Allow(key: string, created: int, now: int) returns (verdict: Verdict)
      requires limits.Valid()
      modifies this
      ensures var o := Take(limits, BucketFor(limits, old(buckets), key, created), now);
              buckets == old(buckets)[key := o.bucket] && verdict == o.verdict
    {
      var b := if key in buckets then buckets[key] else Bucket(limits.Capacity(), created);
      var elapsed := now - b.lastRefill;
      if elapsed > 0 {
        b := b.(tokens := b.tokens + Gain(limits, elapsed));
        if b.tokens > limits.Capacity() {
          b := b.(tokens := limits.Capacity());
        }
        b := b.(lastRefill := now);
      }
      if b.tokens >= 1.0 {
        b := b.(tokens := b.tokens - 1.0);
        verdict := Admitted;
      } else {
        verdict := Refused(ExactWait(limits, b.tokens).Floor);
      }
      buckets := buckets[key := b];
    }
  }

  // ---------------------------------------------------------------------------------------------
  // Admissions in a window
  // ---------------------------------------------------------------------------------------------

  datatype Call = Call(key: string, created: int, now: int)

  function After(l: Limits, buckets: Buckets, c: Call): Buckets
    requires l.Valid()
  {
    buckets[c.key := Take(l, BucketFor(l, buckets, c.key, c.created), c.now).bucket]
  }

  predicate Admits(l: Limits, buckets: Buckets, c: Call)
    requires l.Valid()
  {
    Take(l, BucketFor(l, buckets, c.key, c.created), c.now).verdict.Admitted?
  }

  function Run(l: Limits, start: Buckets, calls: seq<Call>, n: nat): Buckets
    requires l.Valid() && n <= |calls|
  {
    if n == 0 then start else After(l, Run(l, start, calls, n - 1), calls[n - 1])
  }

  /** How many of the first n calls are admissions of `key`. */
  function Admissions(l: Limits, start: Buckets, calls: seq<Call>, n: nat, key: string): nat
    requires l.Valid() && n <= |calls|
  {
    if n == 0 then 0
    else Admissions(l, start, calls, n - 1, key)
         + (if calls[n - 1].key == key && Admits(l, Run(l, start, calls, n - 1), calls[n - 1]) then 1 else 0)
  }

  /** No bucket holds a negative amount or more than the burst. */
  ghost predicate Sound(l: Limits, buckets: Buckets) {
    forall k :: k in buckets ==> 0.0 <= buckets[k].tokens <= l.Capacity()
  }

  lemma TakeKeepsSound(l: Limits, b: Bucket, now: int)
    requires l.Valid() && 0.0 <= b.tokens <= l.Capacity()
    ensures 0.0 <= Take(l, b, now).bucket.tokens <= l.Capacity()
  {
    if now > b.lastRefill {
      GainSign(l, now - b.lastRefill);
    }
  }

  /** All clock readings of the window lie between `from` and `to`. */
  ghost predicate Window(calls: seq<Call>, from: int, to: int) {
    from <= to && forall i :: 0 <= i < |calls| ==> from <= calls[i].created <= calls[i].now <= to
  }

  /** Tokens held plus tokens spent in the window fit the burst and what was earned since `from`. */
  ghost predicate Balanced(l: Limits, buckets: Buckets, key: string, spent: nat, from: int, to: int) {
    if key !in buckets then spent == 0
    else
      var b := buckets[key];
      && 0.0 <= b.tokens <= l.Capacity()
      && (b.lastRefill < from ==> spent == 0)
      && (b.lastRefill >= from ==> spent as real + b.tokens <= l.Capacity() + Gain(l, b.lastRefill - from))
      && (spent > 0 ==> b.lastRefill <= to)
  }

  lemma TakeBalances(l: Limits, b: Bucket, now: int, spent: nat, from: int)
    requires l.Valid() && 0.0 <= b.tokens <= l.Capacity() && from <= now
    requires if b.lastRefill < from then spent == 0
             else spent as real + b.tokens <= l.Capacity() + Gain(l, b.lastRefill - from)
    ensures var o := Take(l, b, now);
            var spent' := spent + (if o.verdict.Admitted? then 1 else 0);
            && o.bucket.lastRefill == (if now > b.lastRefill then now else b.lastRefill)
            && spent' as real + o.bucket.tokens <= l.Capacity() + Gain(l, o.bucket.lastRefill - from)
  {
    GainSign(l, now - from);
    if b.lastRefill >= from && now > b.lastRefill {
      GainAdds(l, b.lastRefill - from, now - b.lastRefill);
    }
  }

  lemma CallBalances(l: Limits, buckets: Buckets, c: Call, key: string, spent: nat, from: int, to: int)
    requires l.Valid() && from <= c.created <= c.now <= to
    requires Balanced(l, buckets, key, spent, from, to)
    requires key in buckets ==> buckets[key].lastRefill <= to
    ensures Balanced(l, After(l, buckets, c), key, spent + (if c.key == key && Admits(l, buckets, c) then 1 else 0),
                     from, to)
    ensures key in After(l, buckets, c) ==> After(l, buckets, c)[key].lastRefill <= to
  {
    if c.key == key {
      var b := BucketFor(l, buckets, key, c.created);
      GainSign(l, c.created - from);
      TakeKeepsSound(l, b, c.now);
      TakeBalances(l, b, c.now, spent, from);
    }
  }

  lemma {:induction false} RunBalances(l: Limits, start: Buckets, calls: seq<Call>, n: nat, key: string, from: int,
                                       to: int)
    requires l.Valid() && n <= |calls| && Sound(l, start) && Window(calls, from, to)
    requires key in start ==> start[key].lastRefill <= from
    ensures Balanced(l, Run(l, start, calls, n), key, Admissions(l, start, calls, n, key), from, to)
    ensures key in Run(l, start, calls, n) ==> Run(l, start, calls, n)[key].lastRefill <= to
  {
    if n == 0 {
      GainSign(l, 0);
    } else {
      RunBalances(l, start, calls, n - 1, key, from, to);
      CallBalances(l, Run(l, start, calls, n - 1), calls[n - 1], key, Admissions(l, start, calls, n - 1, key), from,
                   to);
    }
  }

  lemma BalancedBounds(l: Limits, buckets: Buckets, key: string, spent: nat, from: int, to: int)
    requires l.Valid() && from <= to && Balanced(l, buckets, key, spent, from, to)
    requires key in buckets ==> buckets[key].lastRefill <= to
    ensures spent as real <= l.Capacity() + Gain(l, to - from)
  {
    GainSign(l, to - from);
    if key in buckets && buckets[key].lastRefill >= from {
      var refill := buckets[key].lastRefill;
      GainAdds(l, refill - from, to - refill);
      GainSign(l, to - refill);
    }
  }

  lemma AdmissionsWithinGain(l: Limits, start: Buckets, calls: seq<Call>, key: string, from: int, to: int)
    requires l.Valid() && Sound(l, start) && Window(calls, from, to)
    requires key in start ==> start[key].lastRefill <= from
    ensures Admissions(l, start, calls, |calls|, key) as real <= l.Capacity() + Gain(l, to - from)
  {
    var n := |calls|;
    RunBalances(l, start, calls, n, key, from, to);
    BalancedBounds(l, Run(l, start, calls, n), key, Admissions(l, start, calls, n, key), from, to);
  }

  /**
   In any window from `from` to `to`, whatever the other keys do and whatever happened before, a key is admitted
   at most burst + rps * (to - from) times.
   */
  lemma AdmissionsBounded(l: Limits, start: Buckets, calls: seq<Call>, key: string, from: int, to: int)
    requires l.Valid() && Sound(l, start) && Window(calls, from, to)
    requires key in start ==> start[key].lastRefill <= from
    ensures Admissions(l, start, calls, |calls|, key) as real
            <= l.burst as real + l.rps * ((to - from) as real / 1_000_000_000.0)
  {
    AdmissionsWithinGain(l, start, calls, key, from, to);
    GainSpelledOut(l, Admissions(l, start, calls, |calls|, key), to - from);
  }

  lemma GainSpelledOut(l: Limits, n: nat, dt: int)
    requires n as real <= l.Capacity() + Gain(l, dt)
    ensures n as real <= l.burst as real + l.rps * (dt as real / 1_000_000_000.0)
  {
    GainIs(l, dt);
  }

  /** After any calls from an empty limiter the buckets are sound and refilled no later than the last reading. */
  lemma {:induction false} RunSound(l: Limits, calls: seq<Call>, n: nat, last: int)
    requires l.Valid() && n <= |calls|
    requires forall i :: 0 <= i < n ==> calls[i].created <= calls[i].now <= last
    ensures Sound(l, Run(l, map[], calls, n))
    ensures forall k :: k in Run(l, map[], calls, n) ==> Run(l, map[], calls, n)[k].lastRefill <= last
  {
    if n > 0 {
      RunSound(l, calls, n - 1, last);
      var before, c := Run(l, map[], calls, n - 1), calls[n - 1];
      TakeKeepsSound(l, BucketFor(l, before, c.key, c.created), c.now);
    }
  }

  /** The same bound for any window of any run of the limiter, from its start on. */
  lemma AdmissionsBoundedInRun(l: Limits, before: seq<Call>, calls: seq<Call>, key: string, from: int, to: int)
    requires l.Valid() && Window(calls, from, to)
    requires forall i :: 0 <= i < |before| ==> before[i].created <= before[i].now <= from
    ensures var start := Run(l, map[], before, |before|);
            Admissions(l, start, calls, |calls|, key) as real
            <= l.burst as real + l.rps * ((to - from) as real / 1_000_000_000.0)
  {
    RunSound(l, before, |before|, from);
    AdmissionsBounded(l, Run(l, map[], before, |before|), calls, key, from, to);
  }

  /** A bucket that is used again has what it had and what it earned since, but never more than the burst. */
  lemma RefillsExactly(l: Limits, b: Bucket, now: int)
    requires now >= b.lastRefill && b.tokens <= l.burst as real
    ensures var earned := b.tokens + l.rps * ((now - b.lastRefill) as real / 1_000_000_000.0);
            Refilled(l, b, now) == Bucket(if earned > l.burst as real then l.burst as real else earned, now)
  {
    GainIs(l, now - b.lastRefill);
    assert now == b.lastRefill ==> Gain(l, now - b.lastRefill) == 0.0;
  }

  /** The buckets after n calls for the key at one instant. */
  function Volley(l: Limits, buckets: Buckets, key: string, at: int, n: nat): Buckets
    requires l.Valid()
  {
    if n == 0 then buckets else After(l, Volley(l, buckets, key, at, n - 1), Call(key, at, at))
  }

  /** A new key has its whole burst at once: of any number of calls at one instant exactly the first `burst` pass. */
  lemma {:induction false} NewKeyHasItsBurst(l: Limits, buckets: Buckets, key: string, at: int, n: nat)
    requires l.Valid() && key !in buckets
    ensures Admits(l, Volley(l, buckets, key, at, n), Call(key, at, at)) <==> n < l.burst
    ensures BucketFor(l, Volley(l, buckets, key, at, n), key, at)
            == Bucket(if n < l.burst then l.burst as real - n as real else 0.0, at)
  {
    if n > 0 {
      NewKeyHasItsBurst(l, buckets, key, at, n - 1);
    }
  }

  /** A call about another key leaves a key's bucket alone. */
  lemma OtherKeysUnaffected(l: Limits, buckets: Buckets, c: Call, other: string, created: int)
    requires l.Valid() && other != c.key
    ensures BucketFor(l, After(l, buckets, c), other, created) == BucketFor(l, buckets, other, created)
  {
  }

  // ---------------------------------------------------------------------------------------------
  // Waiting after a refusal
  // ---------------------------------------------------------------------------------------------

  /** A bucket as the limiter holds it when a call reads the clock at `now`. */
  ghost predicate Usable(l: Limits, b: Bucket, now: int) {
    0.0 <= b.tokens <= l.Capacity() && b.lastRefill <= now
  }

  /** `b` is a bucket left by a refusal at time `at`. */
  ghost predicate RefusedAt(l: Limits, b: Bucket, at: int) {
    b.lastRefill == at && 0.0 <= b.tokens < 1.0
  }

  lemma RefusalLeaves(l: Limits, b: Bucket, now: int)
    requires l.Valid() && Usable(l, b, now) && Take(l, b, now).verdict.Refused?
    ensures RefusedAt(l, Take(l, b, now).bucket, now)
    ensures Take(l, b, now).verdict.wait == ExactWait(l, Take(l, b, now).bucket.tokens).Floor
  {
    TakeKeepsSound(l, b, now);
  }

  lemma CrossMultiply(l: Limits, tokens: real, dt: int)
    requires l.Valid()
    ensures tokens + Gain(l, dt) >= 1.0 <==> dt as real >= ExactWait(l, tokens)
  {
    var n, x := NANOS as real, dt as real;
    assert Gain(l, dt) == x * l.rps / n;
    WaitInTokens(x, 1.0 - tokens, n, l.rps);
  }

  lemma WaitInTokens(x: real, need: real, n: real, rps: real)
    requires n > 0.0 && rps > 0.0
    ensures x * rps / n >= need <==> x >= n * need / rps
  {
    ScaleUp(x * rps / n, need, n);
    assert x * rps / n * n == x * rps;
    ScaleUp(x, n * need / rps, rps);
    assert n * need / rps * rps == n * need;
  }

  lemma ScaleUp(a: real, b: real, c: real)
    requires c > 0.0
    ensures a >= b <==> a * c >= b * c
  {
    if a >= b {
      assert (a - b) * c >= 0.0;
    } else {
      assert (b - a) * c > 0.0;
    }
  }

  /**
   The next call after a refusal is admitted exactly when the exact wait has passed; otherwise nothing changes hands.
   */
  lemma NextCall(l: Limits, b: Bucket, at: int, now: int)
    requires l.Valid() && RefusedAt(l, b, at) && at <= now
    ensures Take(l, b, now).verdict.Admitted? <==> (now - at) as real >= ExactWait(l, b.tokens)
    ensures Take(l, b, now).verdict.Refused? ==>
              var b' := Take(l, b, now).bucket;
              RefusedAt(l, b', now) && b'.tokens == b.tokens + Gain(l, now - at)
  {
    CrossMultiply(l, b.tokens, now - at);
    GainSign(l, now - at);
  }

  /** The bucket after calls at these times. */
  function AfterAll(l: Limits, b: Bucket, times: seq<int>): Bucket
    requires l.Valid()
  {
    if times == [] then b else Take(l, AfterAll(l, b, times[..|times| - 1]), times[|times| - 1]).bucket
  }

  /** Calls that keep coming too early change nothing about when the key is let in again. */
  lemma {:induction false} RefusedMeanwhile(l: Limits, b: Bucket, at: int, times: seq<int>)
    requires l.Valid() && RefusedAt(l, b, at)
    requires forall i, j :: 0 <= i < j < |times| ==> times[i] <= times[j]
    requires forall i :: 0 <= i < |times| ==> at <= times[i] && (times[i] - at) as real < ExactWait(l, b.tokens)
    ensures var last := if times == [] then at else times[|times| - 1];
            var b' := AfterAll(l, b, times);
            RefusedAt(l, b', last) && b'.tokens == b.tokens + Gain(l, last - at)
    ensures times != [] ==> Take(l, AfterAll(l, b, times[..|times| - 1]), times[|times| - 1]).verdict.Refused?
  {
    if times == [] {
      GainSign(l, 0);
    } else {
      var init, now := times[..|times| - 1], times[|times| - 1];
      RefusedMeanwhile(l, b, at, init);
      var last := if init == [] then at else init[|init| - 1];
      assert last <= now;
      NextCall(l, AfterAll(l, b, init), last, now);
      GainAdds(l, last - at, now - last);
      CrossMultiply(l, b.tokens + Gain(l, last - at), now - last);
      CrossMultiply(l, b.tokens, now - at);
    }
  }

  /**
   After a call refused at `at` with reported wait d, and any number of calls that came too early, a call is admitted
   exactly when the exact wait has passed. So every call before at + d is refused, every one from at + d + 1 on is
   admitted, and one at exactly at + d is admitted just when no fraction of a nanosecond was cut off.
   */
  lemma RetryExactly(l: Limits, before: Bucket, at: int, d: int, times: seq<int>, now: int)
    requires l.Valid() && Usable(l, before, at) && Take(l, before, at).verdict == Refused(d)
    requires forall i, j :: 0 <= i < j < |times| ==> times[i] <= times[j]
    requires var exact := ExactWait(l, Take(l, before, at).bucket.tokens);
             forall i :: 0 <= i < |times| ==> at <= times[i] <= now && (times[i] - at) as real < exact
    requires at <= now
    ensures var b := Take(l, before, at).bucket;
            var exact := ExactWait(l, b.tokens);
            var v := Take(l, AfterAll(l, b, times), now).verdict;
            && d == exact.Floor
            && (v.Admitted? <==> (now - at) as real >= exact)
            && (now < at + d ==> v.Refused?) && (now > at + d ==> v.Admitted?)
            && (now == at + d ==> (v.Admitted? <==> exact == d as real))
  {
    RefusalLeaves(l, before, at);
    var b := Take(l, before, at).bucket;
    RefusedMeanwhile(l, b, at, times);
    var last := if times == [] then at else times[|times| - 1];
    NextCall(l, AfterAll(l, b, times), last, now);
    GainAdds(l, last - at, now - last);
    CrossMultiply(l, b.tokens + Gain(l, last - at), now - last);
    CrossMultiply(l, b.tokens, now - at);
  }

  // ---------------------------------------------------------------------------------------------
  // The Retry-After header
  // ---------------------------------------------------------------------------------------------

  /** Seconds in the header: the wait rounded up, at least 1. */
  function RetryAfter(wait: int): int {
    var seconds := (wait + NANOS - 1) / NANOS;
    if seconds < 1 then 1 else seconds
  }

  lemma ExactWaitPositive(l: Limits, tokens: real)
    requires l.Valid() && tokens < 1.0
    ensures ExactWait(l, tokens) > 0.0
  {
    var need := (NANOS as real) * (1.0 - tokens);
    assert need > 0.0 && need / l.rps * l.rps == need;
    ScaleUp(0.0, need / l.rps, l.rps);
  }

  lemma HeaderAfterRefusal(l: Limits, b: Bucket, at: int)
    requires l.Valid() && RefusedAt(l, b, at)
    ensures var exact := ExactWait(l, b.tokens);
            var d := exact.Floor;
            var seconds := RetryAfter(d);
            && seconds >= 1
            && (Take(l, b, at + seconds * NANOS).verdict.Admitted? <==> !(d > 0 && d % NANOS == 0 && exact > d as real))
            && Take(l, b, at + seconds * NANOS + 1).verdict.Admitted?
  {
    var exact := ExactWait(l, b.tokens);
    ExactWaitPositive(l, b.tokens);
    var seconds := RetryAfter(exact.Floor);
    NextCall(l, b, at, at + seconds * NANOS);
    NextCall(l, b, at, at + seconds * NANOS + 1);
  }

  /**
   After a call refused with reported wait d, waiting the advertised seconds gets the next call in exactly when d was
   not cut down to a positive whole number of seconds. One nanosecond more always suffices.
   */
  lemma HeaderSufficesExactly(l: Limits, before: Bucket, at: int, d: int)
    requires l.Valid() && Usable(l, before, at) && Take(l, before, at).verdict == Refused(d)
    ensures var b := Take(l, before, at).bucket;
            var exact, seconds := ExactWait(l, b.tokens), RetryAfter(d);
            && seconds >= 1
            && (Take(l, b, at + seconds * NANOS).verdict.Admitted? <==> !(d > 0 && d % NANOS == 0 && exact > d as real))
            && Take(l, b, at + seconds * NANOS + 1).verdict.Admitted?
  {
    RefusalLeaves(l, before, at);
    HeaderAfterRefusal(l, Take(l, before, at).bucket, at);
  }

  /**
   The header can be one retry short: with 0.3 requests per second and a burst of one, a call 333333333 ns after the
   first is told to wait 3 seconds, and the call exactly 3 seconds later is refused again.
   */
  lemma HeaderCanBeShort()
    ensures var l := Limits(0.3, 1);
            var first := Take(l, Bucket(1.0, 0), 0);
            var second := Take(l, first.bucket, 333_333_333);
            && first.verdict.Admitted?
            && second.verdict == Refused(3_000_000_000) && RetryAfter(3_000_000_000) == 3
            && Take(l, second.bucket, 333_333_333 + 3 * NANOS).verdict.Refused?
  {
    var l := Limits(0.3, 1);
    var first := Take(l, Bucket(1.0, 0), 0);
    assert first.bucket == Bucket(0.0, 0);
    assert Gain(l, 333_333_333) == 0.0999999999;
    var second := Take(l, first.bucket, 333_333_333);
    assert second.bucket == Bucket(0.0999999999, 333_333_333);
    assert ExactWait(l, 0.0999999999) * 0.3 == 900_000_000.1;
    assert Gain(l, 3 * NANOS) == 0.9;
  }
}

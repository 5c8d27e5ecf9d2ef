/** Bounded exponential-backoff retries. Delays are whole nanoseconds; the random draw and the context are inputs. */
module Retry {
  import Text

  datatype Policy = Policy(maxAttempts: int, baseDelay: int, maxDelay: int)

  /** Errors as Go chains them: wrapped, marked permanent, or a context error at the bottom. */
  datatype Error = Plain(id: int) | Canceled | DeadlineExceeded | Wrapped(inner: Error) | Marked(inner: Error)

  datatype Outcome = Nil | Err(error: Error)

  /** retry.Permanent. */
  function Permanent(o: Outcome): Outcome {
    match o
    case Nil => Nil
    case Err(e) => Err(Marked(e))
  }

  /** errors.As for the marker: the outermost one in the chain, and what it marks. */
  function FindMarked(e: Error): Outcome {
    match e
    case Marked(inner) => Err(inner)
    case Wrapped(inner) => FindMarked(inner)
    case _ => Nil
  }

  /** errors.Is for either context error. */
  predicate IsContextError(e: Error) {
    match e
    case Canceled => true
    case DeadlineExceeded => true
    case Wrapped(inner) => IsContextError(inner)
    case Marked(inner) => IsContextError(inner)
    case Plain(_) => false
  }

  /** What decides a run: per attempt (from 1), the operation's result, the raw draw, and the state of the context. */
  datatype World = World(fn: nat -> Outcome, draw: nat -> nat, doneBefore: nat -> bool, doneDuring: nat -> bool,
                         ctxErr: Error)

  function Attempts(p: Policy): nat {
    if p.maxAttempts < 1 then 1 else p.maxAttempts
  }

  function Pow2(n: nat): (r: nat)
    ensures r >= 1
  {
    if n == 0 then 1 else 2 * Pow2(n - 1)
  }

  /** base * 2^(attempt-1), capped when a cap is set. */
  function Capped(p: Policy, attempt: nat): int
    requires attempt >= 1
  {
    var full := p.baseDelay * Pow2(attempt - 1);
    if p.maxDelay > 0 && full > p.maxDelay then p.maxDelay else full
  }

  /** backoffDuration: full jitter, a draw between zero and the capped backoff. */
  function BackoffDuration(p: Policy, attempt: nat, draw: nat): (d: int)
    requires attempt >= 1
    ensures 0 <= d
    ensures p.baseDelay > 0 ==> d <= p.baseDelay * Pow2(attempt - 1) && (p.maxDelay > 0 ==> d <= p.maxDelay)
    ensures p.baseDelay <= 0 ==> d == 0
  {
    if p.baseDelay <= 0 then 0
    else
      var capped := Capped(p, attempt);
      if capped <= 0 then 0 else draw % (capped + 1)
  }

  datatype Report = Report(outcome: Outcome, calls: nat, delays: seq<int>)

  /** The operation's last result ends the run whatever budget is left. */
  function Final(o: Outcome): Outcome {
    match o
    case Nil => Nil
    case Err(e) => if FindMarked(e).Err? then FindMarked(e) else o
  }

  predicate Stops(o: Outcome) {
    o.Nil? || FindMarked(o.error).Err? || IsContextError(o.error)
  }

  /** The run from the given attempt on, with the last error seen so far. */
  function From(p: Policy, w: World, attempt: nat, last: Outcome): Report
    requires 1 <= attempt <= Attempts(p)
    decreases Attempts(p) - attempt
  {
    if w.doneBefore(attempt) then Report(if last.Err? then last else Err(w.ctxErr), attempt - 1, [])
    else
      var o := w.fn(attempt);
      if Stops(o) then Report(Final(o), attempt, [])
      else if attempt == Attempts(p) then Report(o, attempt, [])
      else
        var delay := BackoffDuration(p, attempt, w.draw(attempt));
        if w.doneDuring(attempt) then Report(o, attempt, [delay])
        else
          var rest := From(p, w, attempt + 1, o);
          rest.(delays := [delay] + rest.delays)
  }

  /** Do. `calls` counts the times fn ran, `delays` the backoff sleeps that were started. */
  method Do(p: Policy, w: World) returns (outcome: Outcome, calls: nat, delays: seq<int>)
    ensures Report(outcome, calls, delays) == From(p, w, 1, Nil)
  {
    var attempts := p.maxAttempts;
    if attempts < 1 {
      attempts := 1;
    }
    var lastErr := Nil;
    calls, delays := 0, [];
    var attempt := 1;
    while attempt <= attempts
      invariant 1 <= attempt <= attempts == Attempts(p)
      invariant calls == attempt - 1
      invariant lastErr.Nil? <==> attempt == 1
      invariant var rest := From(p, w, attempt, lastErr);
                From(p, w, 1, Nil) == rest.(delays := delays + rest.delays)
      decreases attempts - attempt
    {
      if w.doneBefore(attempt) {
        return if lastErr.Err? then lastErr else Err(w.ctxErr), calls, delays;
      }
      lastErr := w.fn(attempt);
      calls := calls + 1;
      if lastErr.Nil? {
        return Nil, calls, delays;
      }
      var marked := FindMarked(lastErr.error);
      if marked.Err? {
        return marked, calls, delays;
      }
      if IsContextError(lastErr.error) {
        return lastErr, calls, delays;
      }
      if attempt == attempts {
        break;
      }
      var delay := BackoffDuration(p, attempt, w.draw(attempt));
      ghost var rest := From(p, w, attempt + 1, lastErr);
      Text.Associate(delays, [delay], rest.delays);
      delays := delays + [delay];
      if w.doneDuring(attempt) {
        return lastErr, calls, delays;
      }
      attempt := attempt + 1;
    }
    return lastErr, calls, delays;
  }

  // ---------------------------------------------------------------------------------------------
  // How often, when it stops, and what it returns
  // ---------------------------------------------------------------------------------------------

  /** fn runs at most max(1, MaxAttempts) times, and only a plain transient failure is ever followed by another run. */
  lemma {:induction false} StopsWhenItShould(p: Policy, w: World, attempt: nat, last: Outcome)
    requires 1 <= attempt <= Attempts(p)
    ensures var r := From(p, w, attempt, last);
            && attempt - 1 <= r.calls <= Attempts(p)
            && (forall k :: attempt <= k < r.calls ==> !Stops(w.fn(k)) && !w.doneBefore(k) && !w.doneDuring(k))
            && |r.delays| <= r.calls - attempt + 1 && |r.delays| <= Attempts(p) - attempt
    decreases Attempts(p) - attempt
  {
    if !w.doneBefore(attempt) && !Stops(w.fn(attempt)) && attempt < Attempts(p) && !w.doneDuring(attempt) {
      StopsWhenItShould(p, w, attempt + 1, w.fn(attempt));
    }
  }

  /** Why a run ended: its last call decided it, the budget ran out, or the context was done. */
  lemma {:induction false} EndsForAReason(p: Policy, w: World, attempt: nat, last: Outcome)
    requires 1 <= attempt <= Attempts(p)
    requires last.Nil? <==> attempt == 1
    requires attempt > 1 ==> last == w.fn(attempt - 1) && !Stops(last)
    ensures var r := From(p, w, attempt, last);
            if r.calls == 0 then r.outcome == Err(w.ctxErr) && w.doneBefore(1)
            else
              && (r.calls < attempt ==> r.calls == attempt - 1)
              && r.outcome == Final(w.fn(r.calls))
              && (Stops(w.fn(r.calls)) || r.calls == Attempts(p) || w.doneDuring(r.calls) || w.doneBefore(r.calls + 1))
    decreases Attempts(p) - attempt
  {
    if !w.doneBefore(attempt) && !Stops(w.fn(attempt)) && attempt < Attempts(p) && !w.doneDuring(attempt) {
      EndsForAReason(p, w, attempt + 1, w.fn(attempt));
    }
  }

  /**
   Do as a whole: nil comes back exactly when the last call succeeded, and a marker never reaches the caller unpeeled.
   */
  lemma DoReports(p: Policy, w: World)
    ensures var r := From(p, w, 1, Nil);
            && r.calls <= Attempts(p)
            && (r.outcome.Nil? <==> r.calls > 0 && w.fn(r.calls).Nil?)
            && (forall e :: r.calls > 0 && w.fn(r.calls) == Permanent(Err(e)) ==> r.outcome == Err(e))
            && (r.calls == 0 <==> w.doneBefore(1))
  {
    StopsWhenItShould(p, w, 1, Nil);
    EndsForAReason(p, w, 1, Nil);
  }

  /** An error wrapped n times. */
  function Wrap(n: nat, e: Error): Error {
    if n == 0 then e else Wrapped(Wrap(n - 1, e))
  }

  lemma {:induction false} FindsThroughWraps(n: nat, e: Error, id: int)
    ensures FindMarked(Wrap(n, Marked(e))) == Err(e)
    ensures FindMarked(Wrap(n, Canceled)) == FindMarked(Wrap(n, DeadlineExceeded)) == Nil
    ensures FindMarked(Wrap(n, Plain(id))) == Nil
    ensures IsContextError(Wrap(n, Canceled)) && IsContextError(Wrap(n, DeadlineExceeded))
    ensures !IsContextError(Wrap(n, Plain(id)))
  {
    if n > 0 {
      FindsThroughWraps(n - 1, e, id);
    }
  }

  /** A mark or a context error ends a run however deep it is wrapped; any other error is transient. */
  lemma WrappedOutcomes(n: nat, e: Error, id: int)
    ensures Stops(Err(Wrap(n, Marked(e)))) && Final(Err(Wrap(n, Marked(e)))) == Err(e)
    ensures Stops(Err(Wrap(n, Canceled))) && Final(Err(Wrap(n, Canceled))) == Err(Wrap(n, Canceled))
    ensures Stops(Err(Wrap(n, DeadlineExceeded)))
    ensures Final(Err(Wrap(n, DeadlineExceeded))) == Err(Wrap(n, DeadlineExceeded))
    ensures !Stops(Err(Wrap(n, Plain(id)))) && Final(Err(Wrap(n, Plain(id)))) == Err(Wrap(n, Plain(id)))
    ensures Stops(Nil) && Final(Nil) == Nil
  {
    FindsThroughWraps(n, e, id);
  }

  /** Nothing ends the run before its k-th call. */
  ghost predicate GoesOnTo(w: World, from: nat, k: nat) {
    && (forall j :: from <= j < k ==> !Stops(w.fn(j)) && !w.doneBefore(j) && !w.doneDuring(j))
    && !w.doneBefore(k)
  }

  lemma {:induction false} RunsOn(p: Policy, w: World, attempt: nat, k: nat, last: Outcome)
    requires 1 <= attempt <= k <= Attempts(p) && GoesOnTo(w, attempt, k) && (Stops(w.fn(k)) || k == Attempts(p))
    ensures From(p, w, attempt, last).calls == k && From(p, w, attempt, last).outcome == Final(w.fn(k))
    decreases k - attempt
  {
    if attempt < k {
      RunsOn(p, w, attempt + 1, k, w.fn(attempt));
    }
  }

  /** While calls fail for transient reasons only, they go on: up to the one that ends it, or to the whole budget. */
  lemma GoesOnUntil(p: Policy, w: World, k: nat)
    requires 1 <= k && GoesOnTo(w, 1, k)
    requires if p.maxAttempts < 1 then k == 1 else k <= p.maxAttempts
    requires Stops(w.fn(k)) || k == 1 >= p.maxAttempts || k == p.maxAttempts
    ensures From(p, w, 1, Nil).calls == k && From(p, w, 1, Nil).outcome == Final(w.fn(k))
  {
    RunsOn(p, w, 1, k, Nil);
  }

  /** The jitter is full: every delay from zero to the capped doubled base can be drawn. */
  lemma EveryDelayPossible(p: Policy, attempt: nat, d: nat)
    requires attempt >= 1 && p.baseDelay > 0 && d <= p.baseDelay * Pow2(attempt - 1)
    requires p.maxDelay > 0 ==> d <= p.maxDelay
    ensures BackoffDuration(p, attempt, d) == d
  {
    CappedIsPositive(p, attempt);
    SmallRemainder(d, Capped(p, attempt));
  }

  lemma SmallRemainder(d: nat, cap: nat)
    requires d <= cap
    ensures d % (cap + 1) == d
  {
  }

  /** Without a base delay there is none at all. */
  lemma NoDelayWithoutBase(p: Policy, attempt: nat, draw: nat)
    requires attempt >= 1 && p.baseDelay <= 0
    ensures BackoffDuration(p, attempt, draw) == 0
  {
  }

  // ---------------------------------------------------------------------------------------------
  // How long it sleeps
  // ---------------------------------------------------------------------------------------------

  function Sum(s: seq<int>): int {
    if s == [] then 0 else s[0] + Sum(s[1..])
  }

  /** The caps of n backoffs in a row, added up. */
  function CapSum(p: Policy, attempt: nat, n: nat): int
    requires attempt >= 1
    decreases n
  {
    if n == 0 then 0 else Capped(p, attempt) + CapSum(p, attempt + 1, n - 1)
  }

  lemma {:induction false} SleepWithinCaps(p: Policy, w: World, attempt: nat, last: Outcome)
    requires 1 <= attempt <= Attempts(p) && p.baseDelay > 0
    ensures var d := From(p, w, attempt, last).delays; Sum(d) <= CapSum(p, attempt, |d|)
    decreases Attempts(p) - attempt
  {
    var d := From(p, w, attempt, last).delays;
    if d != [] {
      if w.doneDuring(attempt) {
        assert d[1..] == [];
      } else {
        assert d[1..] == From(p, w, attempt + 1, w.fn(attempt)).delays;
        SleepWithinCaps(p, w, attempt + 1, w.fn(attempt));
      }
      CappedIsPositive(p, attempt);
    }
  }

  lemma CappedIsPositive(p: Policy, attempt: nat)
    requires attempt >= 1 && p.baseDelay > 0
    ensures 0 < Capped(p, attempt)
  {
    assert p.baseDelay * Pow2(attempt - 1) > 0;
  }

  lemma {:induction false} CapSumByCap(p: Policy, attempt: nat, n: nat)
    requires attempt >= 1 && p.baseDelay > 0 && p.maxDelay > 0
    ensures CapSum(p, attempt, n) <= n * p.maxDelay
    decreases n
  {
    if n > 0 {
      CapSumByCap(p, attempt + 1, n - 1);
      assert n * p.maxDelay == (n - 1) * p.maxDelay + p.maxDelay;
    }
  }

  lemma {:induction false} CapSumByDoubling(p: Policy, attempt: nat, n: nat)
    requires attempt >= 1 && p.baseDelay > 0
    ensures CapSum(p, attempt, n) <= p.baseDelay * (Pow2(attempt - 1 + n) - Pow2(attempt - 1))
    decreases n
  {
    if n > 0 {
      CapSumByDoubling(p, attempt + 1, n - 1);
      OneMoreSleep(p.baseDelay, Pow2(attempt - 1), Pow2(attempt - 1 + n), CapSum(p, attempt + 1, n - 1),
                   Capped(p, attempt));
    }
  }

  lemma OneMoreSleep(base: int, low: int, high: int, rest: int, delay: int)
    requires rest <= base * (high - 2 * low) && delay <= base * low
    ensures delay + rest <= base * (high - low)
  {
  }

  lemma {:induction false} Pow2Grows(m: nat, n: nat)
    requires m <= n
    ensures Pow2(m) <= Pow2(n)
    decreases n
  {
    if m < n {
      Pow2Grows(m, n - 1);
    }
  }

  /**
   With positive delays, a run of Do sleeps in all at most (n-1) * MaxDelay and at most BaseDelay * (2^(n-1) - 1),
   n being the attempt budget.
   */
  lemma TotalSleepBounded(p: Policy, w: World)
    requires p.baseDelay > 0 && p.maxDelay > 0
    ensures var total := Sum(From(p, w, 1, Nil).delays);
            var n := Attempts(p);
            total <= (n - 1) * p.maxDelay && total <= p.baseDelay * (Pow2(n - 1) - 1)
  {
    var d := From(p, w, 1, Nil).delays;
    SleepWithinCaps(p, w, 1, Nil);
    CapSumByCap(p, 1, |d|);
    CapSumByDoubling(p, 1, |d|);
    StopsWhenItShould(p, w, 1, Nil);
    Pow2Grows(|d|, Attempts(p) - 1);
    Scale(p.maxDelay, |d|, Attempts(p) - 1);
    Scale(p.baseDelay, Pow2(|d|) - 1, Pow2(Attempts(p) - 1) - 1);
  }

  lemma Scale(c: int, a: int, b: int)
    requires c > 0 && a <= b
    ensures a * c <= b * c && c * a <= c * b
  {
  }
}

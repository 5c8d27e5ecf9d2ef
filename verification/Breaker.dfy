/**
 The per-stack circuit breaker and the reconcile cycle that drives it. Times are integers on a clock that never
 runs backwards.
 */
module Breaker {

  datatype State = Closed | Open | HalfOpen

  datatype Entry = Entry(failures: nat, state: State, openedAt: int)

  type Entries = map<string, Entry>

  datatype Config = Config(threshold: int, cooldown: int) {
    predicate Enabled() {
      threshold > 0
    }
  }

  /** An unseen key behaves like a closed entry. */
  function EntryFor(entries: Entries, key: string): Entry {
    if key in entries then entries[key] else Entry(0, Closed, 0)
  }

  // ---------------------------------------------------------------------------------------------
  // The calls
  // ---------------------------------------------------------------------------------------------

  datatype Call = Allow(key: string, now: int) | RecordSuccess(key: string) | RecordFailure(key: string, now: int)

  datatype Answer = Answer(entry: Entry, result: bool)

  /** What a call does to its key's entry, and what it returns (RecordSuccess returns nothing: false). */
  function Act(cfg: Config, e: Entry, call: Call): Answer {
    match call
    case Allow(_, now) =>
      if e.state == Open then
        if now - e.openedAt >= cfg.cooldown then Answer(e.(state := HalfOpen), true) else Answer(e, false)
      else Answer(e, true)
    case RecordSuccess(_) => Answer(Entry(0, Closed, e.openedAt), false)
    case RecordFailure(_, now) =>
      var failed := e.(failures := e.failures + 1);
      match e.state
      case HalfOpen => Answer(failed.(state := Open, openedAt := now), false)
      case Closed =>
        if failed.failures >= cfg.threshold then Answer(failed.(state := Open, openedAt := now), true)
        else Answer(failed, false)
      case Open => Answer(failed, false)
  }

  function After(cfg: Config, entries: Entries, call: Call): Entries {
    if !cfg.Enabled() then entries else entries[call.key := Act(cfg, EntryFor(entries, call.key), call).entry]
  }

  function Result(cfg: Config, entries: Entries, call: Call): bool {
    if !cfg.Enabled() then call.Allow? else Act(cfg, EntryFor(entries, call.key), call).result
  }

  class CircuitBreaker {
    const cfg: Config
    var entries: Entries

    constructor (cfg: Config)
      ensures this.cfg == cfg && entries == map[]
    {
      this.cfg := cfg;
      entries := map[];
    }

    /** State: a key never seen, like any key while the breaker is disabled, reads as closed. */
    function StateFor(key: string): (s: State)
      reads this
      ensures s == if cfg.Enabled() then EntryFor(entries, key).state else Closed
    {
      if cfg.Enabled() && key in entries then entries[key].state else Closed
    }

    method Allow(key: string, now: int) returns (allowed: bool)
      modifies this
      ensures entries == After(cfg, old(entries), Call.Allow(key, now))
      ensures allowed == Result(cfg, old(entries), Call.Allow(key, now))
      ensures allowed <==> StateFor(key) != Open
    {
      if !cfg.Enabled() {
        return true;
      }
      var e := EntryFor(entries, key);
      entries := entries[key := e];
      if e.state == Open {
        if now - e.openedAt >= cfg.cooldown {
          entries := entries[key := e.(state := HalfOpen)];
          return true;
        }
        return false;
      }
      return true;
    }

    method RecordSuccess(key: string)
      modifies this
      ensures entries == After(cfg, old(entries), Call.RecordSuccess(key))
      ensures StateFor(key) == Closed
    {
      if cfg.Enabled() {
        var e := EntryFor(entries, key);
        entries := entries[key := e.(failures := 0, state := Closed)];
      }
    }

    method RecordFailure(key: string, now: int) returns (justTripped: bool)
      modifies this
      ensures entries == After(cfg, old(entries), Call.RecordFailure(key, now))
      ensures justTripped == Result(cfg, old(entries), Call.RecordFailure(key, now))
      ensures justTripped <==> old(StateFor(key)) == Closed && StateFor(key) == Open
    {
      if !cfg.Enabled() {
        return false;
      }
      var e := EntryFor(entries, key);
      e := e.(failures := e.failures + 1);
      justTripped := false;
      match e.state {
        case HalfOpen =>
          e := e.(state := Open, openedAt := now);
        case Closed =>
          if e.failures >= cfg.threshold {
            e := e.(state := Open, openedAt := now);
            justTripped := true;
          }
        case Open =>
      }
      entries := entries[key := e];
    }
  }

  // ---------------------------------------------------------------------------------------------
  // Any interleaving of calls
  // ---------------------------------------------------------------------------------------------

  /** The entries after the first n calls. */
  function Entered(cfg: Config, start: Entries, calls: seq<Call>, n: nat): Entries
    requires n <= |calls|
  {
    if n == 0 then start else After(cfg, Entered(cfg, start, calls, n - 1), calls[n - 1])
  }

  predicate Trips(cfg: Config, start: Entries, calls: seq<Call>, i: nat)
    requires i < |calls|
  {
    calls[i].RecordFailure? && Result(cfg, Entered(cfg, start, calls, i), calls[i])
  }

  lemma OtherKeysUnaffected(cfg: Config, entries: Entries, call: Call, other: string)
    requires other != call.key
    ensures EntryFor(After(cfg, entries, call), other) == EntryFor(entries, other)
  {
  }

  /** A key's entry depends only on the calls about that key. */
  lemma {:induction false} KeysAreIndependent(cfg: Config, start: Entries, calls: seq<Call>, n: nat, key: string)
    requires n <= |calls|
    ensures EntryFor(Entered(cfg, start, calls, n), key)
            == EntryFor(Entered(cfg, start, About(calls[..n], key), |About(calls[..n], key)|), key)
  {
    if n > 0 {
      KeysAreIndependent(cfg, start, calls, n - 1, key);
      assert calls[..n][..n - 1] == calls[..n - 1] && calls[..n][n - 1] == calls[n - 1];
      var before, all := About(calls[..n - 1], key), About(calls[..n], key);
      if calls[n - 1].key == key {
        assert all == before + [calls[n - 1]];
        EnteredPrefix(cfg, start, before, all, |before|);
      } else {
        assert all == before;
      }
    }
  }

  function About(calls: seq<Call>, key: string): seq<Call> {
    if calls == [] then []
    else About(calls[..|calls| - 1], key) + (if calls[|calls| - 1].key == key then [calls[|calls| - 1]] else [])
  }

  lemma {:induction false} EnteredPrefix(cfg: Config, start: Entries, a: seq<Call>, b: seq<Call>, n: nat)
    requires n <= |a| <= |b| && a[..n] == b[..n]
    ensures Entered(cfg, start, a, n) == Entered(cfg, start, b, n)
  {
    if n > 0 {
      assert a[n - 1] == a[..n][n - 1] == b[..n][n - 1] == b[n - 1];
      assert a[..n - 1] == a[..n][..n - 1] == b[..n - 1];
      EnteredPrefix(cfg, start, a, b, n - 1);
    }
  }

  /** Only RecordSuccess leads back to Closed. */
  lemma {:induction false} StaysUnclosed(cfg: Config, start: Entries, calls: seq<Call>, i: nat, j: nat, key: string)
    requires cfg.Enabled() && i <= j <= |calls|
    requires EntryFor(Entered(cfg, start, calls, i), key).state != Closed
    requires forall m :: i <= m < j ==> calls[m] != Call.RecordSuccess(key)
    ensures EntryFor(Entered(cfg, start, calls, j), key).state != Closed
    decreases j
  {
    if i < j {
      StaysUnclosed(cfg, start, calls, i, j - 1, key);
      assert calls[j - 1] != Call.RecordSuccess(key);
    }
  }

  /** Between two trips of one key there is a RecordSuccess for it, whatever else is interleaved. */
  lemma TripsSeparatedBySuccess(cfg: Config, start: Entries, calls: seq<Call>, i: nat, j: nat)
    requires i < j < |calls| && calls[i].key == calls[j].key
    requires Trips(cfg, start, calls, i) && Trips(cfg, start, calls, j)
    ensures exists m :: i < m < j && calls[m] == Call.RecordSuccess(calls[i].key)
  {
    var key := calls[i].key;
    if forall m :: i < m < j ==> calls[m] != Call.RecordSuccess(key) {
      assert EntryFor(Entered(cfg, start, calls, i + 1), key).state == Open;
      StaysUnclosed(cfg, start, calls, i + 1, j, key);
      assert false;
    }
  }

  // ---------------------------------------------------------------------------------------------
  // What the entry says about the calls
  // ---------------------------------------------------------------------------------------------

  /** Failures recorded for a key since its last success, among the first n calls on a new breaker. */
  function FailuresSince(calls: seq<Call>, n: nat, key: string): nat
    requires n <= |calls|
  {
    if n == 0 then 0
    else if calls[n - 1] == Call.RecordSuccess(key) then 0
    else FailuresSince(calls, n - 1, key)
         + (if calls[n - 1].RecordFailure? && calls[n - 1].key == key then 1 else 0)
  }

  /** The count is exact, and the key is closed exactly while it is below the threshold. */
  lemma {:induction false} ClosedExactly(cfg: Config, calls: seq<Call>, n: nat, key: string)
    requires cfg.threshold > 0 && n <= |calls|
    ensures var e := EntryFor(Entered(cfg, map[], calls, n), key);
            && e.failures == FailuresSince(calls, n, key)
            && (e.state == Closed <==> FailuresSince(calls, n, key) < cfg.threshold)
  {
    if n > 0 {
      ClosedExactly(cfg, calls, n - 1, key);
    }
  }

  /** A breaker opens with the failure that reaches the threshold, and with no other. */
  lemma TripsExactly(cfg: Config, calls: seq<Call>, i: nat)
    requires cfg.threshold > 0 && i < |calls| && calls[i].RecordFailure?
    ensures Trips(cfg, map[], calls, i) <==> FailuresSince(calls, i, calls[i].key) + 1 == cfg.threshold
  {
    ClosedExactly(cfg, calls, i, calls[i].key);
    ClosedExactly(cfg, calls, i + 1, calls[i].key);
  }

  /** An open key is refused until the cooldown has passed; then the call is admitted as a trial. */
  lemma AllowsExactly(cfg: Config, entries: Entries, key: string, now: int)
    ensures var was := EntryFor(entries, key);
            var after := EntryFor(After(cfg, entries, Call.Allow(key, now)), key);
            var waited := now - was.openedAt >= cfg.cooldown;
            && (Result(cfg, entries, Call.Allow(key, now)) <==> cfg.threshold <= 0 || was.state != Open || waited)
            && (cfg.threshold > 0 && was.state == Open && waited ==>
                  after == Entry(was.failures, HalfOpen, was.openedAt))
            && (cfg.threshold <= 0 || was.state != Open || !waited ==> after == was)
  {
  }

  // ---------------------------------------------------------------------------------------------
  // The reconcile cycle
  // ---------------------------------------------------------------------------------------------

  datatype Status = Active | Paused | Deploying | Error

  predicate ShouldReconcile(status: Status) {
    status == Active || status == Error
  }

  datatype Check = Failed | Clean | Drifted

  /** What one tick of a stack's loop meets. `deployOk` is the outcome Deploy would have. */
  datatype Tick = Tick(loaded: bool, status: Status, check: Check, autoDeploy: bool, requiresApproval: bool,
                       allowAt: int, deployOk: bool, recordAt: int)

  /** The tick reaches the breaker-gated auto-deploy. */
  predicate WantsDeploy(t: Tick) {
    t.loaded && ShouldReconcile(t.status) && t.check.Drifted? && t.autoDeploy && !t.requiresApproval
  }

  predicate Deploys(cfg: Config, entries: Entries, key: string, t: Tick) {
    WantsDeploy(t) && Result(cfg, entries, Call.Allow(key, t.allowAt))
  }

  predicate FailsDeploy(cfg: Config, entries: Entries, key: string, t: Tick) {
    Deploys(cfg, entries, key, t) && !t.deployOk
  }

  /** The tick records a success: no drift, or a deploy that worked. */
  predicate Succeeds(cfg: Config, entries: Entries, key: string, t: Tick) {
    (t.loaded && ShouldReconcile(t.status) && t.check.Clean?) || (Deploys(cfg, entries, key, t) && t.deployOk)
  }

  /** The breaker after one tick. */
  function Ticked(cfg: Config, entries: Entries, key: string, t: Tick): Entries {
    if !t.loaded || !ShouldReconcile(t.status) || t.check.Failed? then entries
    else if t.check.Clean? then After(cfg, entries, Call.RecordSuccess(key))
    else if !t.autoDeploy || t.requiresApproval then entries
    else
      var asked := After(cfg, entries, Call.Allow(key, t.allowAt));
      if !Result(cfg, entries, Call.Allow(key, t.allowAt)) then asked
      else if t.deployOk then After(cfg, asked, Call.RecordSuccess(key))
      else After(cfg, asked, Call.RecordFailure(key, t.recordAt))
  }

  /** reconcileOnce, its breaker discipline: Allow, then Deploy, then exactly one Record. */
  method ReconcileOnce(breaker: CircuitBreaker, key: string, t: Tick) returns (deployed: bool)
    modifies breaker
    ensures breaker.entries == Ticked(breaker.cfg, old(breaker.entries), key, t)
    ensures deployed == Deploys(breaker.cfg, old(breaker.entries), key, t)
    ensures deployed <==>
              && t.loaded && (t.status == Active || t.status == Error) && t.check.Drifted?
              && t.autoDeploy && !t.requiresApproval
              && (breaker.cfg.threshold <= 0 || EntryFor(old(breaker.entries), key).state != Open
                  || t.allowAt - EntryFor(old(breaker.entries), key).openedAt >= breaker.cfg.cooldown)
  {
    deployed := false;
    if !t.loaded || !ShouldReconcile(t.status) || t.check.Failed? {
      return;
    }
    if t.check.Drifted? {
      if t.autoDeploy && !t.requiresApproval {
        var allowed := breaker.Allow(key, t.allowAt);
        if allowed {
          deployed := true;
          if t.deployOk {
            breaker.RecordSuccess(key);
          } else {
            var _ := breaker.RecordFailure(key, t.recordAt);
          }
        }
      }
    } else {
      breaker.RecordSuccess(key);
    }
  }

  /**
   Which stacks a tick deploys: a loaded one that is active or in error, drifted, set to deploy by itself without
   approval, while the breaker is off, not open, or open for at least the cooldown.
   */
  lemma DeploysExactly(cfg: Config, entries: Entries, key: string, t: Tick)
    ensures Deploys(cfg, entries, key, t) <==>
              && t.loaded && (t.status == Active || t.status == Error) && t.check.Drifted?
              && t.autoDeploy && !t.requiresApproval
              && (cfg.threshold <= 0 || EntryFor(entries, key).state != Open
                  || t.allowAt - EntryFor(entries, key).openedAt >= cfg.cooldown)
  {
  }

  /** What a tick leaves of its stack's entry: untouched, closed by a clean check or a success, or one failure more. */
  lemma TickWrites(cfg: Config, entries: Entries, key: string, t: Tick)
    requires cfg.threshold > 0
    ensures var was, now := EntryFor(entries, key), EntryFor(Ticked(cfg, entries, key, t), key);
            && (!t.loaded || t.status == Paused || t.status == Deploying || t.check.Failed? ==>
                  Ticked(cfg, entries, key, t) == entries)
            && (t.loaded && (t.status == Active || t.status == Error) && t.check.Clean? ==>
                  now.state == Closed && now.failures == 0)
            && (Deploys(cfg, entries, key, t) && t.deployOk ==> now.state == Closed && now.failures == 0)
            && (Deploys(cfg, entries, key, t) && !t.deployOk ==> now.failures == was.failures + 1)
            && (Deploys(cfg, entries, key, t) && !t.deployOk && was.state != Closed ==>
                  now.state == Open && now.openedAt == t.recordAt)
            && (!Deploys(cfg, entries, key, t) && t.check.Drifted? ==> now == was)
  {
  }

  /** The breaker after the first n ticks. */
  function Run(cfg: Config, start: Entries, key: string, ticks: seq<Tick>, n: nat): Entries
    requires n <= |ticks|
  {
    if n == 0 then start else Ticked(cfg, Run(cfg, start, key, ticks, n - 1), key, ticks[n - 1])
  }

  /** Failed auto-deploys among the first n ticks. */
  function Failures(cfg: Config, start: Entries, key: string, ticks: seq<Tick>, n: nat): nat
    requires n <= |ticks|
  {
    if n == 0 then 0
    else Failures(cfg, start, key, ticks, n - 1)
         + Count(FailsDeploy(cfg, Run(cfg, start, key, ticks, n - 1), key, ticks[n - 1]))
  }

  /** The clock runs from `from` to `to`, never backwards. */
  ghost predicate Clocked(ticks: seq<Tick>, from: int, to: int) {
    && from <= to
    && (forall i :: 0 <= i < |ticks| ==> from <= ticks[i].allowAt <= ticks[i].recordAt <= to)
    && (forall i, j :: 0 <= i < j < |ticks| ==> ticks[i].recordAt <= ticks[j].allowAt)
  }

  ghost predicate SuccessAt(cfg: Config, start: Entries, key: string, ticks: seq<Tick>, i: nat)
    requires i < |ticks|
  {
    Succeeds(cfg, Run(cfg, start, key, ticks, i), key, ticks[i])
  }

  ghost predicate NoSuccess(cfg: Config, start: Entries, key: string, ticks: seq<Tick>) {
    forall i: nat {:trigger SuccessAt(cfg, start, key, ticks, i)} :: i < |ticks|
           ==> !SuccessAt(cfg, start, key, ticks, i)
  }

  /** f failed deploys, the last of which opened the breaker at `at`, fit in the time since `from`. */
  ghost predicate Spaced(cfg: Config, f: nat, from: int, at: int) {
    from <= at && (f - cfg.threshold) * cfg.cooldown <= at - from
  }

  /** After n ticks: either still closed and counting, or open with the failures spaced out. */
  ghost predicate Throttled(cfg: Config, e: Entry, f: nat, from: int) {
    match e.state
    case Closed => f <= e.failures < cfg.threshold
    case Open => f > 0 ==> Spaced(cfg, f, from, e.openedAt)
    case HalfOpen => f == 0
  }

  /** The breaker's own rule, kept by every call: a closed entry is below the threshold. */
  ghost predicate Sound(cfg: Config, entries: Entries) {
    forall k :: k in entries && entries[k].state == Closed ==> entries[k].failures < cfg.threshold
  }

  lemma SoundAlways(cfg: Config, entries: Entries, call: Call)
    requires cfg.Enabled() && Sound(cfg, entries)
    ensures Sound(cfg, After(cfg, entries, call))
  {
  }

  /** So it holds after every interleaving of calls on a new breaker. */
  lemma {:induction false} SoundInRun(cfg: Config, calls: seq<Call>, n: nat)
    requires cfg.Enabled() && n <= |calls|
    ensures Sound(cfg, Entered(cfg, map[], calls, n))
  {
    if n > 0 {
      SoundInRun(cfg, calls, n - 1);
      SoundAlways(cfg, Entered(cfg, map[], calls, n - 1), calls[n - 1]);
    }
  }

  lemma OneMoreSpaced(cfg: Config, f: nat, from: int, at: int, later: int)
    requires cfg.cooldown >= 0 && Spaced(cfg, f, from, at) && later - at >= cfg.cooldown
    ensures Spaced(cfg, f + 1, from, later)
  {
    assert (f + 1 - cfg.threshold) * cfg.cooldown == (f - cfg.threshold) * cfg.cooldown + cfg.cooldown;
  }

  lemma WithinThreshold(cfg: Config, f: nat, from: int, at: int)
    requires cfg.cooldown >= 0 && f <= cfg.threshold && from <= at
    ensures Spaced(cfg, f, from, at)
  {
    assert (f - cfg.threshold) * cfg.cooldown <= 0;
  }

  /** The throttle at the end of a tick recorded at `last`, with f failures behind it. */
  ghost predicate Kept(cfg: Config, e: Entry, f: nat, from: int, last: int) {
    Throttled(cfg, e, f, from) && (f > 0 && e.state == Open ==> e.openedAt <= last)
  }

  function Count(b: bool): nat { if b then 1 else 0 }

  lemma TickKeepsThrottle(cfg: Config, entries: Entries, key: string, t: Tick, f: nat, from: int, last: int)
    requires cfg.Enabled() && cfg.cooldown >= 0 && Kept(cfg, EntryFor(entries, key), f, from, last)
    requires from <= last <= t.allowAt <= t.recordAt && !Succeeds(cfg, entries, key, t)
    ensures Kept(cfg, EntryFor(Ticked(cfg, entries, key, t), key),
                 f + Count(FailsDeploy(cfg, entries, key, t)), from, t.recordAt)
  {
    var e := EntryFor(entries, key);
    if FailsDeploy(cfg, entries, key, t) {
      if e.state == Open && f > 0 {
        OneMoreSpaced(cfg, f, from, e.openedAt, t.recordAt);
      } else {
        WithinThreshold(cfg, f + 1, from, t.recordAt);
      }
    }
  }

  function LastRecord(ticks: seq<Tick>, n: nat, from: int): int
    requires n <= |ticks|
  {
    if n == 0 then from else ticks[n - 1].recordAt
  }

  lemma ClockSteps(ticks: seq<Tick>, n: nat, from: int, to: int)
    requires Clocked(ticks, from, to) && n < |ticks|
    ensures from <= LastRecord(ticks, n, from) <= ticks[n].allowAt <= ticks[n].recordAt <= to
  {
  }

  /** The run so far keeps the throttle. */
  ghost predicate KeptUntil(cfg: Config, start: Entries, key: string, ticks: seq<Tick>, n: nat, from: int)
    requires n <= |ticks|
  {
    Kept(cfg, EntryFor(Run(cfg, start, key, ticks, n), key), Failures(cfg, start, key, ticks, n), from,
         LastRecord(ticks, n, from))
  }

  lemma KeptNext(cfg: Config, start: Entries, key: string, ticks: seq<Tick>, n: nat, from: int)
    requires cfg.Enabled() && cfg.cooldown >= 0 && n < |ticks| && KeptUntil(cfg, start, key, ticks, n, from)
    requires from <= LastRecord(ticks, n, from) <= ticks[n].allowAt <= ticks[n].recordAt
    requires !Succeeds(cfg, Run(cfg, start, key, ticks, n), key, ticks[n])
    ensures KeptUntil(cfg, start, key, ticks, n + 1, from)
  {
    TickKeepsThrottle(cfg, Run(cfg, start, key, ticks, n), key, ticks[n], Failures(cfg, start, key, ticks, n), from,
                      LastRecord(ticks, n, from));
  }

  lemma {:induction false} RunThrottled(cfg: Config, start: Entries, key: string, ticks: seq<Tick>, n: nat, from: int,
                                        to: int)
    requires cfg.Enabled() && cfg.cooldown >= 0 && Sound(cfg, start) && n <= |ticks|
    requires Clocked(ticks, from, to) && NoSuccess(cfg, start, key, ticks)
    ensures KeptUntil(cfg, start, key, ticks, n, from)
  {
    if n > 0 {
      RunThrottled(cfg, start, key, ticks, n - 1, from, to);
      ClockSteps(ticks, n - 1, from, to);
      assert !SuccessAt(cfg, start, key, ticks, n - 1);
      KeptNext(cfg, start, key, ticks, n - 1, from);
    }
  }

  /**
   In any stretch of a stack's reconcile loop of length T = to - from with no recorded success, at most
   threshold + T / cooldown auto-deploys fail, from any state the breaker can be in at its start.
   */
  lemma FailedDeploysBounded(cfg: Config, start: Entries, key: string, ticks: seq<Tick>, from: int, to: int)
    requires cfg.Enabled() && cfg.cooldown >= 0 && Sound(cfg, start)
    requires Clocked(ticks, from, to) && NoSuccess(cfg, start, key, ticks)
    ensures (Failures(cfg, start, key, ticks, |ticks|) - cfg.threshold) * cfg.cooldown <= to - from
    ensures cfg.cooldown > 0 ==> Failures(cfg, start, key, ticks, |ticks|) <= cfg.threshold + (to - from) / cfg.cooldown
  {
    var f, n := Failures(cfg, start, key, ticks, |ticks|), |ticks|;
    RunThrottled(cfg, start, key, ticks, n, from, to);
    if f <= cfg.threshold {
      WithinThreshold(cfg, f, from, from);
    }
    if cfg.cooldown > 0 {
      Quotient(f - cfg.threshold, cfg.cooldown, to - from);
    }
  }

  /** The same bound for any stretch that follows any calls on a new breaker, about this or other stacks. */
  lemma FailedDeploysBoundedInRun(cfg: Config, before: seq<Call>, key: string, ticks: seq<Tick>, from: int, to: int)
    requires cfg.Enabled() && cfg.cooldown > 0 && Clocked(ticks, from, to)
    requires NoSuccess(cfg, Entered(cfg, map[], before, |before|), key, ticks)
    ensures Failures(cfg, Entered(cfg, map[], before, |before|), key, ticks, |ticks|)
            <= cfg.threshold + (to - from) / cfg.cooldown
  {
    SoundInRun(cfg, before, |before|);
    FailedDeploysBounded(cfg, Entered(cfg, map[], before, |before|), key, ticks, from, to);
  }

  lemma Quotient(k: int, c: int, t: int)
    requires c > 0 && k * c <= t
    ensures k <= t / c
  {
    assert t < (t / c + 1) * c;
    if k > t / c {
      MultiplyAtMost(t / c + 1, k, c);
    }
  }

  lemma MultiplyAtMost(a: int, b: int, c: int)
    requires a <= b && c > 0
    ensures a * c <= b * c
  {
  }
}

/** What every state of a rolling update keeps, and what a successful one leaves behind. */
module RolloutProofs {
  import opened Containers
  import opened Rollout
  import Text

  // ---------------------------------------------------------------------------------------------
  // One Docker call
  // ---------------------------------------------------------------------------------------------

  /** The id, if taken at all, belongs to a container of the service. */
  ghost predicate OwnId(h: Host, id: nat, s: string) {
    !HasId(Others(h.containers, s), id)
  }

  lemma OwnIdMatches(h: Host, id: nat, s: string)
    requires OwnId(h, id, s)
    ensures forall c :: c in h.containers && c.id == id ==> MatchesServiceName(c.name, s)
  {
    OfMembers(h.containers, s);
  }

  /** `w` differs from `h` only in containers of the service. */
  ghost predicate Apart(h: Host, w: Host, s: string) {
    w.Valid() && w.nextId >= h.nextId && Others(w.containers, s) == Others(h.containers, s)
  }

  lemma AfterCreate(h: Host, s: string, suffix: string, config: Config)
    requires h.Valid()
    ensures var w := Create(h, s + "_" + suffix, config);
            && Apart(h, w, s) && w.nextId == h.nextId + 1 && OwnId(w, h.nextId, s)
            && Of(w.containers, s)
               == [Container(h.nextId, "/" + (s + "_" + suffix), config, false, Starting)] + Of(h.containers, s)
  {
    InstanceNameMatches(s, suffix);
    OfMembers(h.containers, s);
    var w := Create(h, s + "_" + suffix, config);
    assert w.containers[1..] == h.containers;
  }

  lemma AfterAmend(h: Host, id: nat, change: Change, s: string)
    requires h.Valid() && OwnId(h, id, s)
    ensures var w := h.(containers := Amend(h.containers, id, change));
            && Apart(h, w, s) && w.nextId == h.nextId
            && Of(w.containers, s) == Amend(Of(h.containers, s), id, change)
  {
    OwnIdMatches(h, id, s);
    AmendEffect(h.containers, id, change);
    AmendOf(h.containers, id, change, s);
  }

  lemma AfterRemove(h: Host, id: nat, s: string)
    requires h.Valid() && OwnId(h, id, s)
    ensures var w := Remove(h, id);
            && Apart(h, w, s) && w.nextId == h.nextId
            && Of(w.containers, s) == Drop(Of(h.containers, s), id)
  {
    OwnIdMatches(h, id, s);
    DropMembers(h.containers, id);
    DropOf(h.containers, id, s);
  }

  lemma OwnIdOfMember(h: Host, c: Container, s: string)
    requires h.Valid() && c in Of(h.containers, s)
    ensures OwnId(h, c.id, s) && c.id < h.nextId
  {
    OfMembers(h.containers, s);
    forall d | d in Others(h.containers, s) ensures d.id != c.id {
      assert d in h.containers && c in h.containers;
    }
  }

  lemma FreshId(h: Host, s: string)
    requires h.Valid()
    ensures !HasId(Of(h.containers, s), h.nextId)
    ensures DistinctIds(Of(h.containers, s))
  {
    OfMembers(h.containers, s);
  }

  // ---------------------------------------------------------------------------------------------
  // Launch and teardown
  // ---------------------------------------------------------------------------------------------

  function NewContainer(h: Host, job: Job, i: nat, running: bool, health: Health, env: Env): Container {
    Container(h.nextId, "/" + InstanceName(job, i, env), job.config, running, health)
  }

  lemma AmendHead(c: Container, rest: seq<Container>, change: Change)
    requires !HasId(rest, c.id)
    ensures Amend([c] + rest, c.id, change) == [Changed(c, change)] + rest
  {
    assert ([c] + rest)[1..] == rest;
    AmendEffect(rest, c.id, change);
    assert forall i :: 0 <= i < |rest| ==> rest[i] in rest && rest[i].id != c.id;
  }

  /** `w` has one more container of the service, `c`, in front; nothing else changed. */
  ghost predicate Grown(h: Host, w: Host, s: string, c: Container) {
    && Apart(h, w, s) && w.nextId == h.nextId + 1 && c.id == h.nextId && OwnId(w, h.nextId, s)
    && Of(w.containers, s) == [c] + Of(h.containers, s)
  }

  lemma GrownByReport(h: Host, w: Host, s: string, c: Container, running: bool, health: Health)
    requires h.Valid() && Grown(h, w, s, c)
    ensures Grown(h, Report(w, h.nextId, running, health), s, c.(running := running, health := health))
  {
    FreshId(h, s);
    AfterAmend(w, h.nextId, Reports(running, health), s);
    AmendHead(c, Of(h.containers, s), Reports(running, health));
  }

  lemma LaunchStates(h: Host, job: Job, i: nat, running: bool, health: Health, env: Env)
    requires h.Valid()
    ensures forall w :: w in Launch(h, job, i, running, health, env) ==> exists c :: Grown(h, w, job.service, c)
    ensures var up := Final(h, Launch(h, job, i, running, health, env));
            Grown(h, up, job.service, NewContainer(h, job, i, running, health, env))
  {
    var s := job.service;
    AfterCreate(h, s, Text.Decimal(job.keepCount + i) + "_" + env.stamps(i), job.config);
    var created := Create(h, InstanceName(job, i, env), job.config);
    var c := NewContainer(h, job, i, false, Starting, env);
    GrownByReport(h, created, s, c, true, Starting);
    var started := Report(created, h.nextId, true, Starting);
    GrownByReport(h, started, s, c.(running := true), running, health);
    var up := Report(started, h.nextId, running, health);
    assert Launch(h, job, i, running, health, env) == [created, started, up];
    forall w | w in [created, started, up] ensures exists c :: Grown(h, w, s, c) {
      if w == created {
        assert Grown(h, w, s, c);
      } else if w == started {
        assert Grown(h, w, s, c.(running := true));
      } else {
        assert Grown(h, w, s, NewContainer(h, job, i, running, health, env));
      }
    }
  }

  /** What a teardown does to the service's list, whatever fails. */
  ghost predicate Lost(before: seq<Container>, after: seq<Container>, id: nat) {
    && |after| <= |before|
    && (forall c :: c in after && c.id != id ==> c in before)
    && (forall c :: c in before && c.id != id ==> c in after)
    && (forall ids: seq<nat> :: ServingExcept(after, ids) >= ServingExcept(before, [id] + ids))
  }

  lemma HaltLoses(cs: seq<Container>, id: nat)
    ensures Lost(cs, Amend(cs, id, Halted), id)
  {
    AmendEffect(cs, id, Halted);
    var after := Amend(cs, id, Halted);
    forall c | c in after && c.id != id ensures c in cs {
      var i :| 0 <= i < |after| && after[i] == c;
      assert cs[i] == c;
    }
    forall c | c in cs && c.id != id ensures c in after {
      var i :| 0 <= i < |cs| && cs[i] == c;
      assert after[i] == c;
    }
    forall ids: seq<nat> ensures ServingExcept(after, ids) >= ServingExcept(cs, [id] + ids) {
      ServingAfterLoss(cs, id, ids);
    }
  }

  lemma DropLoses(cs: seq<Container>, id: nat)
    requires DistinctIds(cs)
    ensures Lost(cs, Drop(cs, id), id)
  {
    DropMembers(cs, id);
    forall ids: seq<nat> ensures ServingExcept(Drop(cs, id), ids) >= ServingExcept(cs, [id] + ids) {
      ServingAfterLoss(cs, id, ids);
    }
  }

  lemma LosesNothing(cs: seq<Container>, id: nat)
    ensures Lost(cs, cs, id)
  {
    forall ids: seq<nat> ensures ServingExcept(cs, ids) >= ServingExcept(cs, [id] + ids) {
      ServingFewerIds(cs, [id] + ids, ids);
    }
  }

  lemma {:induction false} HaltedElsewhere(cs: seq<Container>, id: nat)
    ensures Drop(Amend(cs, id, Halted), id) == Drop(cs, id)
  {
    if cs != [] {
      HaltedElsewhere(cs[1..], id);
      assert Amend(cs, id, Halted)[1..] == Amend(cs[1..], id, Halted);
    }
  }

  /** A state inside or after the teardown of one container of the service. */
  ghost predicate Torn(h: Host, w: Host, id: nat, s: string) {
    Apart(h, w, s) && w.nextId == h.nextId && Lost(Of(h.containers, s), Of(w.containers, s), id)
  }

  lemma TornByStop(h: Host, id: nat, s: string)
    requires h.Valid() && OwnId(h, id, s)
    ensures Torn(h, Stop(h, id), id, s) && OwnId(Stop(h, id), id, s)
  {
    HaltLoses(Of(h.containers, s), id);
    AfterAmend(h, id, Halted, s);
  }

  lemma TornByRemove(h: Host, id: nat, s: string)
    requires h.Valid() && OwnId(h, id, s)
    ensures Torn(h, Remove(h, id), id, s)
    ensures Of(Remove(h, id).containers, s) == Drop(Of(h.containers, s), id)
  {
    FreshId(h, s);
    DropLoses(Of(h.containers, s), id);
    AfterRemove(h, id, s);
  }

  lemma TornByBoth(h: Host, id: nat, s: string)
    requires h.Valid() && OwnId(h, id, s)
    ensures Torn(h, Remove(Stop(h, id), id), id, s)
    ensures Of(Remove(Stop(h, id), id).containers, s) == Drop(Of(h.containers, s), id)
  {
    TornByStop(h, id, s);
    FreshId(h, s);
    DropLoses(Of(h.containers, s), id);
    AfterAmend(h, id, Halted, s);
    AfterRemove(Stop(h, id), id, s);
    HaltedElsewhere(Of(h.containers, s), id);
  }

  /** A teardown passes through at most these four states, and with a working removal ends in one of two. */
  lemma TearDownCases(h: Host, id: nat, t: Teardown, p: Host -> bool)
    requires p(h) && p(Stop(h, id)) && p(Remove(h, id)) && p(Remove(Stop(h, id), id))
    ensures forall w :: w in TearDown(h, id, t) ==> p(w)
    ensures p(Final(h, TearDown(h, id, t)))
  {
  }

  lemma TearDownEnds(h: Host, id: nat, t: Teardown)
    requires t.removeOk
    ensures Final(h, TearDown(h, id, t)) == Remove(if t.stopOk then Stop(h, id) else h, id)
  {
  }

  lemma TearDownStates(h: Host, id: nat, t: Teardown, s: string)
    requires h.Valid() && OwnId(h, id, s)
    ensures forall w :: w in TearDown(h, id, t) ==> Torn(h, w, id, s)
    ensures Torn(h, Final(h, TearDown(h, id, t)), id, s)
    ensures t.removeOk ==> Of(Final(h, TearDown(h, id, t)).containers, s) == Drop(Of(h.containers, s), id)
  {
    TornByStop(h, id, s);
    TornByRemove(h, id, s);
    TornByBoth(h, id, s);
    LosesNothing(Of(h.containers, s), id);
    TearDownCases(h, id, t, w => Torn(h, w, id, s));
    if t.removeOk {
      TearDownEnds(h, id, t);
    }
  }

  // ---------------------------------------------------------------------------------------------
  // Every state of the rolling loop
  // ---------------------------------------------------------------------------------------------

  /** A floor under the serving containers of a service and, when `bounded`, a ceiling over all of them. */
  datatype Limits = Limits(lo: int, hi: int, bounded: bool)

  ghost predicate Within(h: Host, w: Host, s: string, m: Limits) {
    && Apart(h, w, s)
    && ServingIn(w, s) >= m.lo
    && (m.bounded ==> CountIn(w, s) <= m.hi)
  }

  ghost predicate AllWithin(h: Host, trace: seq<Host>, s: string, m: Limits) {
    forall w :: w in trace ==> Within(h, w, s, m)
  }

  lemma AllWithinConcat(h: Host, a: seq<Host>, b: seq<Host>, s: string, m: Limits)
    requires AllWithin(h, a, s, m) && AllWithin(h, b, s, m)
    ensures AllWithin(h, a + b, s, m)
  {
  }

  lemma AllWithinFrom(h: Host, mid: Host, trace: seq<Host>, s: string, m: Limits)
    requires Apart(h, mid, s) && AllWithin(mid, trace, s, m)
    ensures AllWithin(h, trace, s, m)
  {
  }

  lemma FinalConcat(h: Host, a: seq<Host>, b: seq<Host>)
    ensures Final(h, a + b) == Final(Final(h, a), b)
  {
  }

  /** The removal list names distinct containers of the service. */
  ghost predicate Listed(h: Host, s: string, replace: seq<nat>) {
    && (forall id :: id in replace ==> OwnId(h, id, s) && id < h.nextId && HasId(Of(h.containers, s), id))
    && Text.Distinct(replace)
  }

  /** What the rolling loop needs of the host at iteration i to stay within the limits. */
  ghost predicate CanRoll(h: Host, job: Job, i: nat, replace: seq<nat>, env: Env, m: Limits) {
    var s := job.service;
    && h.Valid() && i <= job.needNew
    && (forall id :: id in replace ==> OwnId(h, id, s) && id < h.nextId)
    && m.lo <= ServingIn(h, s)
    && m.lo <= ServingExcept(Of(h.containers, s), replace) + (if AllAlive(env) then job.needNew - i else 0)
    && (m.bounded ==>
         && TeardownsSucceed(env) && Listed(h, s, replace)
         && CountIn(h, s) <= m.hi
         && (i < job.needNew ==> CountIn(h, s) + 1 <= m.hi && CountIn(h, s) + job.needNew - i - |replace| <= m.hi))
  }

  lemma ListedAfterDrop(h: Host, w: Host, s: string, replace: seq<nat>)
    requires h.Valid() && replace != [] && Listed(h, s, replace)
    requires Apart(h, w, s) && Of(w.containers, s) == Drop(Of(h.containers, s), replace[0])
    ensures Listed(w, s, replace[1..])
    ensures CountIn(w, s) == CountIn(h, s) - 1
  {
    var cs := Of(h.containers, s);
    FreshId(h, s);
    DropMembers(cs, replace[0]);
    forall id | id in replace[1..] ensures OwnId(w, id, s) && id < w.nextId && HasId(Of(w.containers, s), id) {
      assert id in replace && id != replace[0];
      var c :| c in cs && c.id == id;
      assert c in Of(w.containers, s);
    }
  }

  lemma {:induction false} TearDownAllWithin(h: Host, ids: seq<nat>, env: Env, s: string, m: Limits)
    requires h.Valid() && forall id :: id in ids ==> OwnId(h, id, s)
    requires m.lo <= ServingExcept(Of(h.containers, s), ids)
    requires m.bounded ==> CountIn(h, s) <= m.hi
    ensures AllWithin(h, TearDownAll(h, ids, env), s, m)
    decreases |ids|
  {
    if ids != [] {
      var id, t, rest := ids[0], env.teardown(ids[0]), ids[1..];
      assert ids == [id] + rest;
      var first := TearDown(h, id, t);
      var mid := Final(h, first);
      TearDownStates(h, id, t, s);
      forall w | w in first ensures Within(h, w, s, m) {
        assert Torn(h, w, id, s);
        assert ServingExcept(Of(w.containers, s), rest) >= ServingExcept(Of(h.containers, s), [id] + rest);
        ServingBounds(Of(w.containers, s), rest);
      }
      assert ServingExcept(Of(mid.containers, s), rest) >= ServingExcept(Of(h.containers, s), [id] + rest);
      assert Torn(h, mid, id, s);
      forall other | other in rest ensures OwnId(mid, other, s) {
        assert other in ids;
      }
      TearDownAllWithin(mid, rest, env, s, m);
      AllWithinFrom(h, mid, TearDownAll(mid, rest, env), s, m);
      AllWithinConcat(h, first, TearDownAll(mid, rest, env), s, m);
    }
  }

  lemma ServingGrown(h: Host, w: Host, s: string, c: Container, ids: seq<nat>)
    requires h.Valid() && Grown(h, w, s, c) && h.nextId !in ids
    ensures ServingExcept(Of(w.containers, s), ids)
            == ServingExcept(Of(h.containers, s), ids) + (if c.Serving() then 1 else 0)
    ensures CountIn(w, s) == CountIn(h, s) + 1
  {
    assert Of(w.containers, s)[1..] == Of(h.containers, s);
  }

  /** A launch only adds, so it stays above the floor and one above the count. */
  lemma LaunchWithin(h: Host, job: Job, i: nat, running: bool, health: Health, env: Env, m: Limits)
    requires h.Valid() && m.lo <= ServingIn(h, job.service)
    requires m.bounded ==> CountIn(h, job.service) + 1 <= m.hi
    ensures AllWithin(h, Launch(h, job, i, running, health, env), job.service, m)
  {
    LaunchStates(h, job, i, running, health, env);
    forall w | w in Launch(h, job, i, running, health, env) ensures Within(h, w, job.service, m) {
      var c :| Grown(h, w, job.service, c);
      ServingGrown(h, w, job.service, c, []);
    }
  }

  lemma RefusedTearDown(h: Host, up: Host, w: Host, s: string, c: Container, m: Limits)
    requires h.Valid() && m.lo <= ServingIn(h, s) && (m.bounded ==> CountIn(h, s) + 1 <= m.hi)
    requires Grown(h, up, s, c) && Torn(up, w, h.nextId, s)
    ensures Within(h, w, s, m)
  {
    assert [h.nextId] + [] == [h.nextId];
    assert ServingExcept(Of(w.containers, s), []) >= ServingExcept(Of(up.containers, s), [h.nextId] + []);
    FreshId(h, s);
    ServingLosesOne(Of(h.containers, s), h.nextId, []);
    assert Of(up.containers, s)[1..] == Of(h.containers, s);
  }

  /** Taking down the replica that was just refused leaves the service as it was before the launch, or one above. */
  lemma RefusalWithin(h: Host, job: Job, i: nat, env: Env, m: Limits)
    requires h.Valid() && m.lo <= ServingIn(h, job.service)
    requires m.bounded ==> CountIn(h, job.service) + 1 <= m.hi
    requires env.fates(i).Refused?
    ensures AllWithin(h, FailedLaunch(h, job, i, env), job.service, m)
  {
    var s, f := job.service, env.fates(i);
    var launch := Launch(h, job, i, f.running, f.health, env);
    var up := Final(h, launch);
    LaunchWithin(h, job, i, f.running, f.health, env, m);
    LaunchStates(h, job, i, f.running, f.health, env);
    var c := NewContainer(h, job, i, f.running, f.health, env);
    var torn := TearDown(up, h.nextId, f.teardown);
    TearDownStates(up, h.nextId, f.teardown, s);
    forall w | w in torn ensures Within(h, w, s, m) {
      RefusedTearDown(h, up, w, s, c, m);
    }
    AllWithinConcat(h, launch, torn, s, m);
  }

  lemma CreatedWithin(h: Host, job: Job, i: nat, env: Env, m: Limits)
    requires h.Valid() && m.lo <= ServingIn(h, job.service)
    requires m.bounded ==> CountIn(h, job.service) + 1 <= m.hi
    ensures var created := Create(h, InstanceName(job, i, env), job.config);
            && Within(h, created, job.service, m)
            && Grown(h, created, job.service, NewContainer(h, job, i, false, Starting, env))
  {
    var s := job.service;
    AfterCreate(h, s, Text.Decimal(job.keepCount + i) + "_" + env.stamps(i), job.config);
    ServingGrown(h, Create(h, InstanceName(job, i, env), job.config), s, NewContainer(h, job, i, false, Starting, env),
                 []);
  }

  lemma DropHead(c: Container, rest: seq<Container>)
    requires !HasId(rest, c.id)
    ensures Drop([c] + rest, c.id) == rest
  {
    assert ([c] + rest)[1..] == rest;
    DropAbsent(rest, c.id);
  }

  /** Removing what was just created leaves the service's list as it was. */
  lemma UncreatedWithin(h: Host, created: Host, s: string, c: Container, m: Limits)
    requires h.Valid() && Grown(h, created, s, c)
    requires m.lo <= ServingIn(h, s) && (m.bounded ==> CountIn(h, s) + 1 <= m.hi)
    ensures Within(h, Remove(created, h.nextId), s, m)
  {
    AfterRemove(created, h.nextId, s);
    FreshId(h, s);
    DropHead(c, Of(h.containers, s));
  }

  lemma StartErrorWithin(h: Host, job: Job, i: nat, env: Env, m: Limits)
    requires h.Valid() && m.lo <= ServingIn(h, job.service)
    requires m.bounded ==> CountIn(h, job.service) + 1 <= m.hi
    ensures var created := Create(h, InstanceName(job, i, env), job.config);
            AllWithin(h, [created, Remove(created, h.nextId)], job.service, m)
  {
    CreatedWithin(h, job, i, env, m);
    UncreatedWithin(h, Create(h, InstanceName(job, i, env), job.config), job.service,
                    NewContainer(h, job, i, false, Starting, env), m);
  }

  /** What the launch half of a turn establishes for the removal half. */
  ghost predicate Launched(h: Host, up: Host, job: Job, i: nat, replace: seq<nat>, env: Env, m: Limits) {
    var s := job.service;
    && Apart(h, up, s) && i < job.needNew
    && (forall id :: id in replace ==> OwnId(up, id, s) && id < up.nextId)
    && m.lo <= ServingExcept(Of(up.containers, s), replace) + (if AllAlive(env) then job.needNew - i - 1 else 0)
    && (m.lo < ServingIn(up, s) || m.lo <= ServingExcept(Of(up.containers, s), replace))
    && (m.bounded ==>
         && TeardownsSucceed(env) && Listed(up, s, replace)
         && CountIn(up, s) <= m.hi
         && CountIn(up, s) - 1 + job.needNew - i - |replace| <= m.hi)
  }

  lemma LaunchForSwap(h: Host, job: Job, i: nat, replace: seq<nat>, env: Env, m: Limits)
    requires CanRoll(h, job, i, replace, env, m) && i < job.needNew && env.fates(i).Accepted?
    ensures var launch := Launch(h, job, i, env.fates(i).alive, Judged(job), env);
            AllWithin(h, launch, job.service, m) && Launched(h, Final(h, launch), job, i, replace, env, m)
  {
    var s, alive := job.service, env.fates(i).alive;
    LaunchWithin(h, job, i, alive, Judged(job), env, m);
    LaunchStates(h, job, i, alive, Judged(job), env);
    var up := Final(h, Launch(h, job, i, alive, Judged(job), env));
    var c := NewContainer(h, job, i, alive, Judged(job), env);
    assert h.nextId !in replace;
    ServingGrown(h, up, s, c, []);
    ServingGrown(h, up, s, c, replace);
    if m.bounded {
      ListedGrown(h, up, s, c, replace);
    }
  }

  /** One full turn: launch a replica, then take down the first container of the removal list. */
  lemma SwapWithin(h: Host, up: Host, job: Job, i: nat, replace: seq<nat>, env: Env, m: Limits)
    requires h.Valid() && Launched(h, up, job, i, replace, env, m) && replace != []
    ensures var swap := TearDown(up, replace[0], env.teardown(replace[0]));
            && AllWithin(h, swap, job.service, m)
            && Apart(h, Final(up, swap), job.service)
            && CanRoll(Final(up, swap), job, i + 1, replace[1..], env, m)
  {
    var s, id, rest := job.service, replace[0], replace[1..];
    assert replace == [id] + rest;
    var swap := TearDown(up, id, env.teardown(id));
    TearDownStates(up, id, env.teardown(id), s);
    forall w | Torn(up, w, id, s)
      ensures Within(h, w, s, m)
              && m.lo <= ServingExcept(Of(w.containers, s), rest) + (if AllAlive(env) then job.needNew - i - 1 else 0)
    {
      TornKeepsFloor(up, w, id, rest, s);
    }
    var end := Final(up, swap);
    assert Torn(up, end, id, s);
    forall other | other in rest ensures OwnId(end, other, s) && other < end.nextId {
      assert other in replace;
    }
    if m.bounded {
      ListedAfterDrop(up, end, s, replace);
    }
  }

  lemma TornKeepsFloor(up: Host, w: Host, id: nat, rest: seq<nat>, s: string)
    requires up.Valid() && Torn(up, w, id, s)
    ensures ServingIn(w, s) >= ServingIn(up, s) - 1
    ensures ServingExcept(Of(w.containers, s), rest) >= ServingExcept(Of(up.containers, s), [id] + rest)
    ensures ServingIn(w, s) >= ServingExcept(Of(up.containers, s), [id] + rest)
    ensures CountIn(w, s) <= CountIn(up, s)
  {
    assert [id] + [] == [id];
    assert ServingExcept(Of(w.containers, s), []) >= ServingExcept(Of(up.containers, s), [id] + []);
    FreshId(up, s);
    ServingLosesOne(Of(up.containers, s), id, []);
    ServingBounds(Of(w.containers, s), rest);
  }

  lemma ListedGrown(h: Host, up: Host, s: string, c: Container, replace: seq<nat>)
    requires h.Valid() && Grown(h, up, s, c) && Listed(h, s, replace)
    ensures Listed(up, s, replace)
  {
    forall id | id in replace ensures HasId(Of(up.containers, s), id) {
      var d :| d in Of(h.containers, s) && d.id == id;
      assert d in Of(up.containers, s);
    }
  }

  /** A turn with nothing left to remove. */
  lemma GrowWithin(h: Host, job: Job, i: nat, env: Env, m: Limits)
    requires CanRoll(h, job, i, [], env, m) && i < job.needNew && env.fates(i).Accepted?
    ensures var launch := Launch(h, job, i, env.fates(i).alive, Judged(job), env);
            && AllWithin(h, launch, job.service, m)
            && Apart(h, Final(h, launch), job.service)
            && CanRoll(Final(h, launch), job, i + 1, [], env, m)
  {
    var s, alive := job.service, env.fates(i).alive;
    LaunchWithin(h, job, i, alive, Judged(job), env, m);
    LaunchStates(h, job, i, alive, Judged(job), env);
    ServingGrown(h, Final(h, Launch(h, job, i, alive, Judged(job), env)), s,
                 NewContainer(h, job, i, alive, Judged(job), env), []);
  }

  /** A turn that fails ends within the limits. */
  lemma FailedTurnWithin(h: Host, job: Job, i: nat, replace: seq<nat>, env: Env, m: Limits)
    requires CanRoll(h, job, i, replace, env, m) && i < job.needNew && !env.fates(i).Accepted?
    ensures AllWithin(h, FailedLaunch(h, job, i, env), job.service, m)
  {
    match env.fates(i)
    case CreateError =>
    case StartError(cleanedUp) =>
      StartErrorWithin(h, job, i, env, m);
    case Refused(_, _, _) =>
      RefusalWithin(h, job, i, env, m);
  }

  /** A turn that succeeds stays within the limits and leaves a host from which the next can. */
  lemma TurnWithin(h: Host, job: Job, i: nat, replace: seq<nat>, env: Env, m: Limits)
    requires CanRoll(h, job, i, replace, env, m) && i < job.needNew && env.fates(i).Accepted?
    ensures var turn := TurnTrace(h, job, i, replace, env);
            && AllWithin(h, turn, job.service, m) && Apart(h, Final(h, turn), job.service)
            && CanRoll(Final(h, turn), job, i + 1, Rest(replace), env, m)
  {
    var launch := Launch(h, job, i, env.fates(i).alive, Judged(job), env);
    var up := Final(h, launch);
    FinalConcat(h, launch, Swap(up, replace, env));
    if replace == [] {
      GrowWithin(h, job, i, env, m);
      assert launch + [] == launch;
    } else {
      LaunchForSwap(h, job, i, replace, env, m);
      SwapWithin(h, up, job, i, replace, env, m);
      AllWithinConcat(h, launch, Swap(up, replace, env), job.service, m);
    }
  }

  /** Whatever happens from iteration i on, every state stays within the limits. */
  lemma {:induction false} RollWithin(h: Host, job: Job, i: nat, replace: seq<nat>, env: Env, m: Limits)
    requires CanRoll(h, job, i, replace, env, m)
    ensures AllWithin(h, Roll(h, job, i, replace, env).trace, job.service, m)
    decreases job.needNew - i
  {
    var s := job.service;
    if i == job.needNew {
      TearDownAllWithin(h, replace, env, s, m);
    } else if !env.fates(i).Accepted? {
      FailedTurnWithin(h, job, i, replace, env, m);
    } else {
      var turn := TurnTrace(h, job, i, replace, env);
      var next := Final(h, turn);
      TurnWithin(h, job, i, replace, env, m);
      RollWithin(next, job, i + 1, Rest(replace), env, m);
      AllWithinThen(h, next, turn, Roll(next, job, i + 1, Rest(replace), env).trace, s, m);
      RollIsTurnAndRest(h, job, i, replace, env);
    }
  }

  lemma AllWithinThen(h: Host, next: Host, a: seq<Host>, b: seq<Host>, s: string, m: Limits)
    requires AllWithin(h, a, s, m) && Apart(h, next, s) && AllWithin(next, b, s, m)
    ensures AllWithin(h, a + b, s, m)
  {
    AllWithinFrom(h, next, b, s, m);
    AllWithinConcat(h, a, b, s, m);
  }

  /** The states of one accepted turn. */
  function TurnTrace(h: Host, job: Job, i: nat, replace: seq<nat>, env: Env): seq<Host>
    requires env.fates(i).Accepted?
  {
    var launch := Launch(h, job, i, env.fates(i).alive, Judged(job), env);
    launch + Swap(Final(h, launch), replace, env)
  }

  lemma RollIsTurnAndRest(h: Host, job: Job, i: nat, replace: seq<nat>, env: Env)
    requires i < job.needNew && env.fates(i).Accepted?
    ensures var turn := TurnTrace(h, job, i, replace, env);
            Roll(h, job, i, replace, env).trace
            == turn + Roll(Final(h, turn), job, i + 1, Rest(replace), env).trace
  {
    var launch := Launch(h, job, i, env.fates(i).alive, Judged(job), env);
    FinalConcat(h, launch, Swap(Final(h, launch), replace, env));
  }

  // ---------------------------------------------------------------------------------------------
  // The partition of the existing containers
  // ---------------------------------------------------------------------------------------------

  ghost predicate Fine(c: Container, image: string) {
    c.config.image == image && c.Serving()
  }

  /** The two lists hold distinct ids of the examined containers and, without an error, all of them. */
  ghost predicate SortedIds(existing: seq<Container>, p: Partition) {
    && (forall id :: id in p.keep + p.replace ==> HasId(existing, id))
    && Text.Distinct(p.keep + p.replace)
    && (p.ok ==> |p.keep| + |p.replace| == |existing| && forall c :: c in existing ==> c.id in p.keep + p.replace)
  }

  /** The host while and after `existing` is examined: the service only gains serving containers. */
  ghost predicate SortedStates(h: Host, s: string, trace: seq<Host>) {
    var w := Final(h, trace);
    && Apart(h, w, s) && w.nextId == h.nextId
    && SameShape(Of(h.containers, s), Of(w.containers, s))
    && AllWithin(h, trace, s, NoWorse(h, s))
    && ServingIn(w, s) >= ServingIn(h, s)
  }

  /** Containers not examined are as they were; kept ones run the image and serve. */
  ghost predicate KeepsFine(h: Host, s: string, existing: seq<Container>, svc: Service, secretsChanged: bool,
                            p: Partition) {
    var after := Of(Final(h, p.trace).containers, s);
    && (forall c :: c in after && !HasId(existing, c.id) ==> c in Of(h.containers, s))
    && (forall c :: c in after && c.id in p.keep ==> Fine(c, svc.image) && !secretsChanged)
  }

  /** What settling one container does to the list it is in. */
  ghost predicate Settled(cs: seq<Container>, out: seq<Container>, c: Container) {
    && SameShape(cs, out)
    && (forall d :: d in cs && d.id != c.id ==> d in out)
    && (forall d :: d in out && d.id != c.id ==> d in cs)
    && (forall d :: d in out && d.id == c.id ==> d.Serving() && d.config == c.config)
  }

  lemma AmendSettles(cs: seq<Container>, c: Container)
    requires DistinctIds(cs) && c in cs
    ensures Settled(cs, Amend(cs, c.id, Reports(true, Healthy)), c)
  {
    AmendEffect(cs, c.id, Reports(true, Healthy));
    var out := Amend(cs, c.id, Reports(true, Healthy));
    forall d | d in cs && d.id != c.id ensures d in out {
      var i :| 0 <= i < |cs| && cs[i] == d;
      assert out[i] == d;
    }
    forall d | d in out
      ensures d.id != c.id ==> d in cs
      ensures d.id == c.id ==> d.Serving() && d.config == c.config
    {
      var i :| 0 <= i < |out| && out[i] == d;
      assert cs[i] in cs;
      if d.id == c.id {
        SameIdSame(cs, cs[i], c);
      }
    }
  }

  /** The host that reports the container `c` settled. */
  lemma SettleOne(h: Host, c: Container, s: string)
    requires h.Valid() && c in Of(h.containers, s)
    ensures var w := Report(h, c.id, true, Healthy);
            && Apart(h, w, s) && w.nextId == h.nextId && ServingIn(w, s) >= ServingIn(h, s)
            && Settled(Of(h.containers, s), Of(w.containers, s), c)
  {
    var cs := Of(h.containers, s);
    OwnIdOfMember(h, c, s);
    AfterAmend(h, c.id, Reports(true, Healthy), s);
    ServingAfterGain(cs, c.id, []);
    FreshId(h, s);
    AmendSettles(cs, c);
  }

  lemma TailIds(existing: seq<Container>)
    requires existing != [] && DistinctIds(existing)
    ensures DistinctIds(existing[1..]) && !HasId(existing[1..], existing[0].id)
    ensures forall id :: HasId(existing, id) <==> id == existing[0].id || HasId(existing[1..], id)
  {
    var rest := existing[1..];
    assert existing == [existing[0]] + rest;
    forall id | HasId(existing, id) ensures id == existing[0].id || HasId(rest, id) {
      var c :| c in existing && c.id == id;
      assert c == existing[0] || c in rest;
    }
    forall id | HasId(rest, id) ensures HasId(existing, id) {
      var c :| c in rest && c.id == id;
      assert c in existing;
    }
    assert existing[0] in existing;
  }

  lemma DistinctCons(id: nat, keep: seq<nat>, replace: seq<nat>)
    requires Text.Distinct(keep + replace) && id !in keep + replace
    ensures Text.Distinct([id] + keep + replace) && Text.Distinct(keep + ([id] + replace))
  {
    var a, b := [id] + keep + replace, keep + ([id] + replace);
    forall i, j | 0 <= i < j < |a| ensures a[i] != a[j] {
      assert a == [id] + (keep + replace);
    }
    forall i, j | 0 <= i < j < |b| ensures b[i] != b[j] {
      assert forall k :: 0 <= k < |keep| ==> (keep + replace)[k] == keep[k] && keep[k] in keep + replace;
      assert forall k :: 0 <= k < |replace| ==>
               (keep + replace)[|keep| + k] == replace[k] && replace[k] in keep + replace;
    }
  }

  lemma {:induction false} PartitionIds(h: Host, existing: seq<Container>, svc: Service, secretsChanged: bool, env: Env)
    requires DistinctIds(existing)
    ensures SortedIds(existing, Partitioned(h, existing, svc, secretsChanged, env))
    decreases |existing|
  {
    if existing != [] {
      var c, rest := existing[0], existing[1..];
      assert existing == [c] + rest;
      TailIds(existing);
      var after := if Judge(c, svc, secretsChanged, env).Settle? then Report(h, c.id, true, Healthy) else h;
      PartitionIds(after, rest, svc, secretsChanged, env);
      var p := Partitioned(after, rest, svc, secretsChanged, env);
      DistinctCons(c.id, p.keep, p.replace);
    }
  }

  lemma SameIdSame(cs: seq<Container>, a: Container, b: Container)
    requires DistinctIds(cs) && a in cs && b in cs && a.id == b.id
    ensures a == b
  {
  }

  lemma SameShapeTransitive(a: seq<Container>, b: seq<Container>, c: seq<Container>)
    requires SameShape(a, b) && SameShape(b, c)
    ensures SameShape(a, c)
  {
  }

  /** The limits a host sets on what may follow: no serving container fewer, no container more. */
  function NoWorse(h: Host, s: string): Limits {
    Limits(ServingIn(h, s), CountIn(h, s), true)
  }

  lemma SettleHeadWithin(h: Host, settled: Host, s: string, trace: seq<Host>)
    requires Apart(h, settled, s) && ServingIn(settled, s) >= ServingIn(h, s) && CountIn(settled, s) == CountIn(h, s)
    requires AllWithin(settled, trace, s, NoWorse(settled, s))
    ensures AllWithin(h, [settled] + trace, s, NoWorse(h, s))
  {
    forall x | x in trace ensures Within(h, x, s, NoWorse(h, s)) {
      assert Within(settled, x, s, NoWorse(settled, s));
    }
    assert AllWithin(h, [settled], s, NoWorse(h, s));
    AllWithinConcat(h, [settled], trace, s, NoWorse(h, s));
  }

  lemma SettleHeadStates(h: Host, s: string, c: Container, trace: seq<Host>)
    requires h.Valid() && c in Of(h.containers, s)
    requires SortedStates(Report(h, c.id, true, Healthy), s, trace)
    ensures SortedStates(h, s, [Report(h, c.id, true, Healthy)] + trace)
    ensures Final(h, [Report(h, c.id, true, Healthy)] + trace) == Final(Report(h, c.id, true, Healthy), trace)
  {
    var settled := Report(h, c.id, true, Healthy);
    SettleOne(h, c, s);
    FinalConcat(h, [settled], trace);
    SettleHeadWithin(h, settled, s, trace);
    SameShapeTransitive(Of(h.containers, s), Of(settled.containers, s), Of(Final(settled, trace).containers, s));
  }

  lemma {:induction false} PartitionStates(h: Host, s: string, existing: seq<Container>, svc: Service,
                                           secretsChanged: bool, env: Env)
    requires h.Valid() && DistinctIds(existing)
    requires forall c :: c in existing ==> c in Of(h.containers, s)
    ensures SortedStates(h, s, Partitioned(h, existing, svc, secretsChanged, env).trace)
    decreases |existing|
  {
    if existing != [] {
      var c, rest := existing[0], existing[1..];
      assert c in existing && forall d :: d in rest ==> d in existing;
      TailIds(existing);
      if Judge(c, svc, secretsChanged, env).Settle? {
        var settled := Report(h, c.id, true, Healthy);
        StillListed(h, s, c, rest);
        PartitionStates(settled, s, rest, svc, secretsChanged, env);
        SettleHeadStates(h, s, c, Partitioned(settled, rest, svc, secretsChanged, env).trace);
      } else if !Judge(c, svc, secretsChanged, env).CannotTell? {
        PartitionStates(h, s, rest, svc, secretsChanged, env);
      }
    }
  }

  lemma StillListed(h: Host, s: string, c: Container, rest: seq<Container>)
    requires h.Valid() && c in Of(h.containers, s) && !HasId(rest, c.id)
    requires forall d :: d in rest ==> d in Of(h.containers, s)
    ensures Report(h, c.id, true, Healthy).Valid()
    ensures forall d :: d in rest ==> d in Of(Report(h, c.id, true, Healthy).containers, s)
  {
    SettleOne(h, c, s);
    forall d | d in rest ensures d.id != c.id {
      assert HasId(rest, d.id);
    }
  }

  lemma {:induction false} PartitionKeepsFine(h: Host, s: string, existing: seq<Container>, svc: Service,
                                              secretsChanged: bool, env: Env)
    requires h.Valid() && DistinctIds(existing)
    requires forall c :: c in existing ==> c in Of(h.containers, s)
    ensures KeepsFine(h, s, existing, svc, secretsChanged, Partitioned(h, existing, svc, secretsChanged, env))
    decreases |existing|
  {
    if existing != [] {
      var c, rest := existing[0], existing[1..];
      assert c in existing && forall d :: d in rest ==> d in existing;
      TailIds(existing);
      match Judge(c, svc, secretsChanged, env)
      case CannotTell =>
      case Replace =>
        PartitionKeepsFine(h, s, rest, svc, secretsChanged, env);
      case Keep =>
        PartitionKeepsFine(h, s, rest, svc, secretsChanged, env);
        KeepHead(h, s, c, rest, svc, secretsChanged, Partitioned(h, rest, svc, secretsChanged, env));
      case Settle =>
        StillListed(h, s, c, rest);
        var settled := Report(h, c.id, true, Healthy);
        PartitionKeepsFine(settled, s, rest, svc, secretsChanged, env);
        SettleHead(h, s, c, rest, svc, secretsChanged, Partitioned(settled, rest, svc, secretsChanged, env));
    }
  }

  lemma KeepHead(h: Host, s: string, c: Container, rest: seq<Container>, svc: Service, secretsChanged: bool,
                 p: Partition)
    requires h.Valid() && c in Of(h.containers, s) && !HasId(rest, c.id)
    requires KeepsFine(h, s, rest, svc, secretsChanged, p)
    requires Fine(c, svc.image) && !secretsChanged
    ensures KeepsFine(h, s, [c] + rest, svc, secretsChanged, p.(keep := [c.id] + p.keep))
  {
    FreshId(h, s);
    ConsIds(c, rest);
    forall d | d in Of(Final(h, p.trace).containers, s) && d.id == c.id ensures Fine(d, svc.image) {
      SameIdSame(Of(h.containers, s), c, d);
    }
  }

  lemma ConsIds(c: Container, rest: seq<Container>)
    ensures forall id :: HasId([c] + rest, id) <==> id == c.id || HasId(rest, id)
  {
    forall id | HasId(rest, id) ensures HasId([c] + rest, id) {
      var d :| d in rest && d.id == id;
      assert d in [c] + rest;
    }
    assert c in [c] + rest;
  }

  lemma SettleHead(h: Host, s: string, c: Container, rest: seq<Container>, svc: Service, secretsChanged: bool,
                   p: Partition)
    requires h.Valid() && c in Of(h.containers, s) && !HasId(rest, c.id)
    requires KeepsFine(Report(h, c.id, true, Healthy), s, rest, svc, secretsChanged, p)
    requires c.config.image == svc.image && !secretsChanged
    ensures KeepsFine(h, s, [c] + rest, svc, secretsChanged,
                      p.(trace := [Report(h, c.id, true, Healthy)] + p.trace, keep := [c.id] + p.keep))
  {
    SettleOne(h, c, s);
    ConsIds(c, rest);
    FinalConcat(h, [Report(h, c.id, true, Healthy)], p.trace);
  }
}

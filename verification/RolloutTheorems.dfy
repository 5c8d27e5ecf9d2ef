/** The main results about one service's rolling update. */
module RolloutTheorems {
  import opened Containers
  import opened Rollout
  import opened RolloutProofs
  import Text

  // ---------------------------------------------------------------------------------------------
  // From the partition to the plan
  // ---------------------------------------------------------------------------------------------

  /** Everything the rolling loop starts from. */
  ghost predicate Planned(h: Host, w: Host, req: Request, plan: Plan) {
    var s := req.name;
    && Apart(h, w, s) && w.nextId == h.nextId
    && SameShape(Of(h.containers, s), Of(w.containers, s)) && ServingIn(w, s) >= ServingIn(h, s)
    && Listed(w, s, plan.replace)
    && |plan.keep| + |plan.replace| == CountIn(h, s) && |plan.keep| <= DesiredReplicas(req.svc)
    && (forall c :: c in Of(w.containers, s) && c.id !in plan.replace ==> Fine(c, req.svc.image) && !req.secretsChanged)
  }

  lemma TrimSplits(keep: seq<nat>, replace: seq<nat>, replicas: nat)
    requires Text.Distinct(keep + replace)
    ensures var plan := Trimmed(keep, replace, replicas);
            && Text.Distinct(plan.replace)
            && |plan.keep| + |plan.replace| == |keep| + |replace| && |plan.keep| <= replicas
            && (forall id :: id in replace ==> id in plan.replace)
            && (forall id :: id in plan.replace ==> id in keep + replace)
  {
    var both := keep + replace;
    assert forall k :: 0 <= k < |replace| ==> both[|keep| + k] == replace[k];
    if |keep| > replicas {
      var removal := replace + keep[replicas..];
      forall a, b | 0 <= a < b < |removal| ensures removal[a] != removal[b] {
        var a' := if a < |replace| then |keep| + a else replicas + a - |replace|;
        var b' := if b < |replace| then |keep| + b else replicas + b - |replace|;
        assert both[a'] == removal[a] && both[b'] == removal[b] && a' != b';
      }
      forall id | id in removal ensures id in both {
        var a :| 0 <= a < |removal| && removal[a] == id;
        assert both[if a < |replace| then |keep| + a else replicas + a - |replace|] == id;
      }
    }
  }

  lemma PlanHolds(h: Host, req: Request, env: Env)
    requires h.Valid()
    requires Partitioned(h, Of(h.containers, req.name), req.svc, req.secretsChanged, env).ok
    ensures var p := Partitioned(h, Of(h.containers, req.name), req.svc, req.secretsChanged, env);
            Planned(h, Final(h, p.trace), req, PlanFor(p, req.svc))
  {
    var s, cs := req.name, Of(h.containers, req.name);
    FreshId(h, s);
    PartitionIds(h, cs, req.svc, req.secretsChanged, env);
    PartitionStates(h, s, cs, req.svc, req.secretsChanged, env);
    PartitionKeepsFine(h, s, cs, req.svc, req.secretsChanged, env);
    var p := Partitioned(h, cs, req.svc, req.secretsChanged, env);
    TrimSplits(p.keep, p.replace, DesiredReplicas(req.svc));
    PlanListed(h, Final(h, p.trace), s, p, PlanFor(p, req.svc));
    PlanFine(h, Final(h, p.trace), req, p, PlanFor(p, req.svc));
  }

  lemma PlanListed(h: Host, w: Host, s: string, p: Partition, plan: Plan)
    requires h.Valid() && Apart(h, w, s) && w.nextId == h.nextId && SameShape(Of(h.containers, s), Of(w.containers, s))
    requires SortedIds(Of(h.containers, s), p)
    requires Text.Distinct(plan.replace) && forall id :: id in plan.replace ==> id in p.keep + p.replace
    ensures Listed(w, s, plan.replace)
  {
    forall id | id in plan.replace ensures OwnId(w, id, s) && id < w.nextId && HasId(Of(w.containers, s), id) {
      assert HasId(Of(h.containers, s), id);
      var c :| c in Of(h.containers, s) && c.id == id;
      var i :| 0 <= i < |Of(h.containers, s)| && Of(h.containers, s)[i] == c;
      assert Of(w.containers, s)[i] in Of(w.containers, s);
      OwnIdOfMember(w, Of(w.containers, s)[i], s);
    }
  }

  lemma PlanFine(h: Host, w: Host, req: Request, p: Partition, plan: Plan)
    requires w == Final(h, p.trace) && p.ok && SameShape(Of(h.containers, req.name), Of(w.containers, req.name))
    requires SortedIds(Of(h.containers, req.name), p)
    requires KeepsFine(h, req.name, Of(h.containers, req.name), req.svc, req.secretsChanged, p)
    requires forall id :: id in p.replace ==> id in plan.replace
    ensures forall c :: c in Of(w.containers, req.name) && c.id !in plan.replace ==>
              Fine(c, req.svc.image) && !req.secretsChanged
  {
    var before, after := Of(h.containers, req.name), Of(w.containers, req.name);
    forall c | c in after && c.id !in plan.replace ensures c.id in p.keep {
      var i :| 0 <= i < |after| && after[i] == c;
      assert before[i].id == c.id && before[i] in before;
      assert c.id in p.keep + p.replace;
    }
  }

  // ---------------------------------------------------------------------------------------------
  // Availability: the floor and the ceiling, in every state and at every failure exit
  // ---------------------------------------------------------------------------------------------

  function Min(a: int, b: int): int { if a < b then a else b }
  function Max(a: int, b: int): int { if a > b then a else b }

  ghost predicate AllServe(h: Host, s: string) {
    forall c :: c in Of(h.containers, s) ==> c.Serving()
  }

  /** The containers deployService may leave in place: right image, unless the secrets changed. */
  function Reusable(cs: seq<Container>, req: Request): nat {
    if cs == [] then 0
    else (if !req.secretsChanged && cs[0].config.image == req.svc.image then 1 else 0) + Reusable(cs[1..], req)
  }

  function KeptCount(h: Host, req: Request): nat {
    Min(Reusable(Of(h.containers, req.name), req), DesiredReplicas(req.svc))
  }

  lemma {:induction false} PartitionOfServing(h: Host, existing: seq<Container>, req: Request, env: Env)
    requires forall c :: c in existing ==> c.Serving()
    ensures var p := Partitioned(h, existing, req.svc, req.secretsChanged, env);
            p.trace == [] && (p.ok ==> |p.keep| == Reusable(existing, req))
            && ((forall id :: env.inspected(id)) ==> p.ok)
    decreases |existing|
  {
    if existing != [] {
      assert existing[0] in existing && forall d :: d in existing[1..] ==> d in existing;
      PartitionOfServing(h, existing[1..], req, env);
    }
  }

  /** The floor the documentation calls zero downtime. */
  function FloorFor(h: Host, req: Request): int {
    Min(CountIn(h, req.name), DesiredReplicas(req.svc))
  }

  function CeilingFor(h: Host, req: Request): int {
    Max(CountIn(h, req.name) + 1, DesiredReplicas(req.svc))
  }

  /**
   If every existing container serves, then in every state, at every exit and whatever fails, at least
   min(existing, replicas) containers serve, provided accepted replicas do, or enough containers stay in place.
   If removals succeed too, there are never more than max(existing + 1, replicas) containers.
   */
  lemma RollingUpdateStaysWithin(h: Host, req: Request, env: Env)
    requires h.Valid() && AllServe(h, req.name)
    requires AllAlive(env) || KeptCount(h, req) >= FloorFor(h, req)
    ensures AllWithin(h, DeployService(h, req, env).trace, req.name,
                      Limits(FloorFor(h, req), CeilingFor(h, req), TeardownsSucceed(env)))
  {
    var s, cs := req.name, Of(h.containers, req.name);
    PartitionOfServing(h, cs, req, env);
    var p := Partitioned(h, cs, req.svc, req.secretsChanged, env);
    if !PortsCollide(req.svc) && env.preflight && env.listed && p.ok {
      PlanHolds(h, req, env);
      var plan := PlanFor(p, req.svc);
      ServingBounds(cs, plan.replace);
      FreshId(h, s);
      ServingLosesMany(cs, plan.replace);
      var m := Limits(FloorFor(h, req), CeilingFor(h, req), TeardownsSucceed(env));
      assert CanRoll(h, JobFor(req, plan), 0, plan.replace, env, m);
      RollWithin(h, JobFor(req, plan), 0, plan.replace, env, m);
    }
  }

  // ---------------------------------------------------------------------------------------------
  // When the floor is guaranteed: exactly
  // ---------------------------------------------------------------------------------------------

  /** The run in which every call succeeds and every accepted replica is already dead. */
  ghost function AllDead(): Env {
    Env(true, true, id => true, id => false, i => Accepted(false), id => Teardown(true, true), i => "")
  }

  ghost predicate DeadOnArrival(env: Env) {
    TeardownsSucceed(env) && forall i {:trigger env.fates(i)} :: env.fates(i) == Accepted(false)
  }

  lemma {:induction false} DeadReplicasAddNothing(h: Host, job: Job, i: nat, replace: seq<nat>, env: Env)
    requires h.Valid() && i <= job.needNew && DeadOnArrival(env)
    requires Owned(h, job.service, replace)
    ensures ServingIn(Final(h, Roll(h, job, i, replace, env).trace), job.service)
            == ServingExcept(Of(h.containers, job.service), replace)
    ensures i < job.needNew ==> Roll(h, job, i, replace, env).trace != []
    decreases job.needNew - i
  {
    var s := job.service;
    if i == job.needNew {
      TearDownAllLeaves(h, replace, env, s);
    } else {
      assert env.fates(i) == Accepted(false);
      var launch := Launch(h, job, i, false, Judged(job), env);
      var up := Final(h, launch);
      DeadLaunch(h, job, i, replace, env);
      SwapExactly(up, replace, env, s);
      DeadReplicasAddNothing(Final(up, Swap(up, replace, env)), job, i + 1, Rest(replace), env);
      RollTurn(h, job, i, replace, env);
    }
  }

  lemma SwapExactly(up: Host, replace: seq<nat>, env: Env, s: string)
    requires up.Valid() && TeardownsSucceed(env) && Owned(up, s, replace)
    ensures var next := Final(up, Swap(up, replace, env));
            && next.Valid() && Owned(next, s, Rest(replace))
            && ServingExcept(Of(next.containers, s), Rest(replace)) == ServingExcept(Of(up.containers, s), replace)
  {
    if replace != [] {
      RemovedExactly(up, replace, env, s);
    }
  }

  lemma DeadLaunch(h: Host, job: Job, i: nat, replace: seq<nat>, env: Env)
    requires h.Valid() && Owned(h, job.service, replace)
    ensures var up := Final(h, Launch(h, job, i, false, Judged(job), env));
            && Apart(h, up, job.service) && Owned(up, job.service, replace)
            && ServingExcept(Of(up.containers, job.service), replace)
               == ServingExcept(Of(h.containers, job.service), replace)
  {
    LaunchStates(h, job, i, false, Judged(job), env);
    var up := Final(h, Launch(h, job, i, false, Judged(job), env));
    ServingGrown(h, up, job.service, NewContainer(h, job, i, false, Judged(job), env), replace);
    OwnedLater(h, up, job.service, replace, replace);
  }

  /** One accepted turn of the rolling loop, and where the run then ends. */
  lemma RollTurn(h: Host, job: Job, i: nat, replace: seq<nat>, env: Env)
    requires i < job.needNew && env.fates(i).Accepted?
    ensures var launch := Launch(h, job, i, env.fates(i).alive, Judged(job), env);
            var next := Final(Final(h, launch), Swap(Final(h, launch), replace, env));
            var roll, rest := Roll(h, job, i, replace, env), Roll(next, job, i + 1, Rest(replace), env);
            && roll.trace != [] && roll.ok == rest.ok && Final(h, roll.trace) == Final(next, rest.trace)
  {
    var launch := Launch(h, job, i, env.fates(i).alive, Judged(job), env);
    var swap := Swap(Final(h, launch), replace, env);
    FinalConcat(h, launch, swap);
    FinalConcat(h, launch + swap, Roll(Final(Final(h, launch), swap), job, i + 1, Rest(replace), env).trace);
  }

  /** The removal list still belongs to the service. */
  ghost predicate Owned(h: Host, s: string, ids: seq<nat>) {
    forall id :: id in ids ==> OwnId(h, id, s) && id < h.nextId
  }

  lemma OwnedLater(h: Host, w: Host, s: string, ids: seq<nat>, rest: seq<nat>)
    requires Owned(h, s, ids) && Apart(h, w, s) && forall id :: id in rest ==> id in ids
    ensures Owned(w, s, rest)
  {
  }

  /** Taking down the head of the removal list, removal succeeding, changes nothing outside the list. */
  lemma RemovedExactly(h: Host, replace: seq<nat>, env: Env, s: string)
    requires h.Valid() && replace != [] && env.teardown(replace[0]).removeOk && Owned(h, s, replace)
    ensures var next := Final(h, TearDown(h, replace[0], env.teardown(replace[0])));
            && Apart(h, next, s) && Owned(next, s, replace[1..])
            && Of(next.containers, s) == Drop(Of(h.containers, s), replace[0])
            && ServingExcept(Of(next.containers, s), replace[1..]) == ServingExcept(Of(h.containers, s), replace)
  {
    var id, rest, t := replace[0], replace[1..], env.teardown(replace[0]);
    assert replace == [id] + rest && OwnId(h, id, s);
    TearDownStates(h, id, t, s);
    var next := Final(h, TearDown(h, id, t));
    assert Torn(h, next, id, s);
    ServingAfterLoss(Of(h.containers, s), id, rest);
    OwnedLater(h, next, s, replace, rest);
  }

  lemma {:induction false} TearDownAllLeaves(h: Host, ids: seq<nat>, env: Env, s: string)
    requires h.Valid() && TeardownsSucceed(env) && Owned(h, s, ids)
    ensures var end := Final(h, TearDownAll(h, ids, env));
            && Apart(h, end, s)
            && ServingIn(end, s) == ServingExcept(Of(h.containers, s), ids)
            && (forall c :: c in Of(end.containers, s) ==> c in Of(h.containers, s) && c.id !in ids)
    decreases |ids|
  {
    if ids != [] {
      var first := TearDown(h, ids[0], env.teardown(ids[0]));
      var next := Final(h, first);
      RemovedExactly(h, ids, env, s);
      DropMembers(Of(h.containers, s), ids[0]);
      TearDownAllLeaves(next, ids[1..], env, s);
      FinalConcat(h, first, TearDownAll(next, ids[1..], env));
      ConsMember(ids);
    }
  }

  lemma ConsMember(ids: seq<nat>)
    requires ids != []
    ensures forall id :: id in ids <==> id == ids[0] || id in ids[1..]
  {
    assert ids == [ids[0]] + ids[1..];
  }

  lemma {:induction false} TearDownAllCount(h: Host, ids: seq<nat>, env: Env, s: string)
    requires h.Valid() && TeardownsSucceed(env) && Listed(h, s, ids)
    ensures CountIn(Final(h, TearDownAll(h, ids, env)), s) == CountIn(h, s) - |ids|
    decreases |ids|
  {
    if ids != [] {
      var first := TearDown(h, ids[0], env.teardown(ids[0]));
      var next := Final(h, first);
      RemovedExactly(h, ids, env, s);
      ListedAfterDrop(h, next, s, ids);
      TearDownAllCount(next, ids[1..], env, s);
      FinalConcat(h, first, TearDownAll(next, ids[1..], env));
    }
  }

  /**
   The floor holds for every honest outcome exactly when the service has a health check, or enough running
   containers stay in place, or the deploy is rejected for its ports. Without a health check waitForHealthy
   accepts a container that has already exited, so a full replacement can end with nothing serving.
   */
  lemma FloorGuaranteedExactly(h: Host, req: Request)
    requires h.Valid() && AllServe(h, req.name)
    ensures (forall env :: Honest(env, req.svc) ==>
              AllWithin(h, DeployService(h, req, env).trace, req.name, Limits(FloorFor(h, req), 0, false)))
            <==> req.svc.hasHealthCheck || KeptCount(h, req) >= FloorFor(h, req) || PortsCollide(req.svc)
  {
    var m := Limits(FloorFor(h, req), 0, false);
    if req.svc.hasHealthCheck || KeptCount(h, req) >= FloorFor(h, req) || PortsCollide(req.svc) {
      forall env | Honest(env, req.svc) ensures AllWithin(h, DeployService(h, req, env).trace, req.name, m) {
        if !PortsCollide(req.svc) {
          RollingUpdateStaysWithin(h, req, env);
        }
      }
    } else {
      var env := AllDead();
      DeadDeployLeavesKept(h, req);
      var trace := DeployService(h, req, env).trace;
      assert Final(h, trace) in trace;
      assert !Within(h, Final(h, trace), req.name, m);
      assert Honest(env, req.svc);
    }
  }

  lemma DeadDeployLeavesKept(h: Host, req: Request)
    requires h.Valid() && AllServe(h, req.name)
    requires !PortsCollide(req.svc) && KeptCount(h, req) < DesiredReplicas(req.svc)
    ensures var trace := DeployService(h, req, AllDead()).trace;
            trace != [] && ServingIn(Final(h, trace), req.name) == KeptCount(h, req)
  {
    var s, cs, env := req.name, Of(h.containers, req.name), AllDead();
    PartitionOfServing(h, cs, req, env);
    PlanHolds(h, req, env);
    var plan := PlanFor(Partitioned(h, cs, req.svc, req.secretsChanged, env), req.svc);
    DeadReplicasAddNothing(h, JobFor(req, plan), 0, plan.replace, env);
    ExceptListed(h, s, plan.replace);
    var roll := Roll(h, JobFor(req, plan), 0, plan.replace, env);
    assert [] + roll.trace == roll.trace;
  }

  /** When all serve, those outside a list of distinct members are exactly the rest. */
  lemma ExceptListed(h: Host, s: string, ids: seq<nat>)
    requires h.Valid() && AllServe(h, s) && Listed(h, s, ids)
    ensures ServingExcept(Of(h.containers, s), ids) == CountIn(h, s) - |ids|
  {
    ServingBounds(Of(h.containers, s), ids);
    FreshId(h, s);
    ServingExceptDistinct(Of(h.containers, s), ids);
  }

  lemma {:induction false} ServingExceptDistinct(cs: seq<Container>, ids: seq<nat>)
    requires DistinctIds(cs) && Text.Distinct(ids) && (forall id :: id in ids ==> HasId(cs, id))
    requires forall c :: c in cs ==> c.Serving()
    ensures ServingExcept(cs, ids) == |cs| - |ids|
    decreases |ids|
  {
    if ids == [] {
      ServingBounds(cs, []);
    } else {
      var id, rest := ids[0], ids[1..];
      assert ids == [id] + rest;
      DropMembers(cs, id);
      forall other | other in rest ensures HasId(Drop(cs, id), other) {
        assert other in ids;
        var c :| c in cs && c.id == other;
        assert c in Drop(cs, id);
      }
      ServingExceptDistinct(Drop(cs, id), rest);
      ServingAfterLoss(cs, id, rest);
    }
  }

  // ---------------------------------------------------------------------------------------------
  // What a successful deploy leaves behind
  // ---------------------------------------------------------------------------------------------

  /** A container the request is satisfied with. */
  ghost predicate Fits(c: Container, config: Config, renewed: bool, alive: bool) {
    && (if renewed then c.config == config else c.config.image == config.image)
    && (alive ==> c.Serving())
  }

  /** Every replica this job launches successfully is good. */
  ghost predicate GoodNew(job: Job, env: Env, good: Container -> bool) {
    forall w: Host, k: nat {:trigger NewContainer(w, job, k, env.fates(k).alive, Judged(job), env)} ::
      env.fates(k).Accepted? ==> good(NewContainer(w, job, k, env.fates(k).alive, Judged(job), env))
  }

  /** Everything of the service but the listed containers is good. */
  ghost predicate GoodRest(h: Host, s: string, replace: seq<nat>, good: Container -> bool) {
    forall c :: c in Of(h.containers, s) && c.id !in replace ==> good(c)
  }

  /** The loop's success leaves exactly the planned number of containers, all of them good. */
  lemma {:induction false} RollLeaves(h: Host, job: Job, i: nat, replace: seq<nat>, env: Env, good: Container -> bool)
    requires h.Valid() && i <= job.needNew && TeardownsSucceed(env) && Listed(h, job.service, replace)
    requires GoodRest(h, job.service, replace, good) && GoodNew(job, env, good)
    requires Roll(h, job, i, replace, env).ok
    ensures var end := Final(h, Roll(h, job, i, replace, env).trace);
            && Apart(h, end, job.service)
            && CountIn(end, job.service) == CountIn(h, job.service) - |replace| + job.needNew - i
            && GoodRest(end, job.service, [], good)
    decreases job.needNew - i
  {
    var s := job.service;
    if i == job.needNew {
      TearDownAllLeaves(h, replace, env, s);
      TearDownAllCount(h, replace, env, s);
    } else {
      var launch := Launch(h, job, i, env.fates(i).alive, Judged(job), env);
      var up := Final(h, launch);
      LaunchLeaves(h, job, i, replace, env, good);
      if replace != [] {
        SwapLeaves(up, job, replace, env, good);
      }
      RollTurn(h, job, i, replace, env);
      RollLeaves(Final(up, Swap(up, replace, env)), job, i + 1, Rest(replace), env, good);
    }
  }

  lemma LaunchLeaves(h: Host, job: Job, i: nat, replace: seq<nat>, env: Env, good: Container -> bool)
    requires h.Valid() && env.fates(i).Accepted? && Listed(h, job.service, replace)
    requires GoodRest(h, job.service, replace, good) && GoodNew(job, env, good)
    ensures var up := Final(h, Launch(h, job, i, env.fates(i).alive, Judged(job), env));
            && Apart(h, up, job.service) && Listed(up, job.service, replace)
            && CountIn(up, job.service) == CountIn(h, job.service) + 1
            && GoodRest(up, job.service, replace, good)
  {
    var s, alive := job.service, env.fates(i).alive;
    var up := Final(h, Launch(h, job, i, alive, Judged(job), env));
    LaunchStates(h, job, i, alive, Judged(job), env);
    var c := NewContainer(h, job, i, alive, Judged(job), env);
    ServingGrown(h, up, s, c, []);
    ListedGrown(h, up, s, c, replace);
    assert good(c);
    assert forall d :: d in Of(up.containers, s) ==> d == c || d in Of(h.containers, s);
  }

  lemma SwapLeaves(up: Host, job: Job, replace: seq<nat>, env: Env, good: Container -> bool)
    requires up.Valid() && replace != [] && TeardownsSucceed(env) && Listed(up, job.service, replace)
    requires GoodRest(up, job.service, replace, good)
    ensures var next := Final(up, TearDown(up, replace[0], env.teardown(replace[0])));
            && Apart(up, next, job.service) && Listed(next, job.service, replace[1..])
            && CountIn(next, job.service) == CountIn(up, job.service) - 1
            && GoodRest(next, job.service, replace[1..], good)
  {
    var s := job.service;
    RemovedExactly(up, replace, env, s);
    var next := Final(up, TearDown(up, replace[0], env.teardown(replace[0])));
    ListedAfterDrop(up, next, s, replace);
    DropMembers(Of(up.containers, s), replace[0]);
    forall c | c in Of(next.containers, s) && c.id !in replace[1..] ensures good(c) {
      assert c in Of(up.containers, s) && c.id !in replace;
    }
  }

  /** What the plan leaves in place, and what it launches, is good. */
  ghost predicate PlanIsGood(h: Host, req: Request, env: Env, good: Container -> bool) {
    var p := Partitioned(h, Of(h.containers, req.name), req.svc, req.secretsChanged, env);
    var plan := PlanFor(p, req.svc);
    GoodRest(Final(h, p.trace), req.name, plan.replace, good) && GoodNew(JobFor(req, plan), env, good)
  }

  /** A successful deploy with working teardowns leaves exactly the declared replicas, all of them good. */
  lemma DeployLeaves(h: Host, req: Request, env: Env, good: Container -> bool)
    requires h.Valid() && TeardownsSucceed(env) && DeployService(h, req, env).ok
    requires PlanIsGood(h, req, env, good)
    ensures var end := Final(h, DeployService(h, req, env).trace);
            && Apart(h, end, req.name)
            && CountIn(end, req.name) == DesiredReplicas(req.svc)
            && GoodRest(end, req.name, [], good)
  {
    var p := Partitioned(h, Of(h.containers, req.name), req.svc, req.secretsChanged, env);
    PlanHolds(h, req, env);
    var plan := PlanFor(p, req.svc);
    var mid := Final(h, p.trace);
    RollLeaves(mid, JobFor(req, plan), 0, plan.replace, env, good);
    FinalConcat(h, p.trace, Roll(mid, JobFor(req, plan), 0, plan.replace, env).trace);
  }

  /**
   After a successful deploy with working teardowns there are exactly the declared replicas, all on the service's
   image; all serving if accepted replicas do; and all created with this request's configuration, hence its
   secrets, if the secrets had changed. Containers of other services are untouched.
   */
  lemma DeployConverges(h: Host, req: Request, env: Env)
    requires h.Valid() && TeardownsSucceed(env) && DeployService(h, req, env).ok
    ensures var end := Final(h, DeployService(h, req, env).trace);
            && Apart(h, end, req.name)
            && CountIn(end, req.name) == DesiredReplicas(req.svc)
            && forall c :: c in Of(end.containers, req.name) ==>
                 Fits(c, ConfigFor(req.name, req.svc, req.stack, req.secrets), req.secretsChanged, AllAlive(env))
  {
    var config := ConfigFor(req.name, req.svc, req.stack, req.secrets);
    PlanHolds(h, req, env);
    DeployLeaves(h, req, env, c => Fits(c, config, req.secretsChanged, AllAlive(env)));
  }

  /** In every state of a deploy, failed ones too, the containers of other services are untouched. */
  lemma DeployTouchesOnlyItsService(h: Host, req: Request, env: Env)
    requires h.Valid()
    ensures var trace := DeployService(h, req, env).trace;
            && (forall w :: w in trace ==> Apart(h, w, req.name))
            && Apart(h, Final(h, trace), req.name)
  {
    var s, cs := req.name, Of(h.containers, req.name);
    FreshId(h, s);
    PartitionStates(h, s, cs, req.svc, req.secretsChanged, env);
    var p := Partitioned(h, cs, req.svc, req.secretsChanged, env);
    if !PortsCollide(req.svc) && env.preflight && env.listed && p.ok {
      PlanHolds(h, req, env);
      var plan, mid := PlanFor(p, req.svc), Final(h, p.trace);
      var roll := Roll(mid, JobFor(req, plan), 0, plan.replace, env);
      var m := Limits(0 - JobFor(req, plan).needNew, 0, false);
      RollWithin(mid, JobFor(req, plan), 0, plan.replace, env, m);
      AllWithinFrom(h, mid, roll.trace, s, m);
      FinalConcat(h, p.trace, roll.trace);
    }
  }

  // ---------------------------------------------------------------------------------------------
  // Which containers can stay
  // ---------------------------------------------------------------------------------------------

  /** A container the partition may keep: the right image, running, and not known to be unhealthy. */
  predicate Keepable(c: Container, image: string) {
    c.config.image == image && c.running && c.health != Unhealthy
  }

  /** How many of these containers the partition keeps without waiting for any. */
  ghost function FineCount(cs: seq<Container>, image: string): nat {
    if cs == [] then 0 else (if Fine(cs[0], image) then 1 else 0) + FineCount(cs[1..], image)
  }

  /** The i-th container can stay: it may be kept, and those before it that are kept for certain leave room for it. */
  ghost predicate CanStay(cs: seq<Container>, i: nat, svc: Service)
    requires i < |cs|
  {
    Keepable(cs[i], svc.image) && FineCount(cs[..i], svc.image) < DesiredReplicas(svc)
  }

  /** The same container but for its reported state. */
  predicate SameMake(c: Container, d: Container) {
    c.id == d.id && c.name == d.name && c.config == d.config
  }

  /** Whatever is waited for, the k-th kept container may be kept, and at most k fine ones are listed before it. */
  lemma {:induction false} KeptAt(h: Host, cs: seq<Container>, svc: Service, env: Env, k: nat) returns (i: nat)
    requires Partitioned(h, cs, svc, false, env).ok && k < |Partitioned(h, cs, svc, false, env).keep|
    ensures i < |cs| && cs[i].id == Partitioned(h, cs, svc, false, env).keep[k]
    ensures Keepable(cs[i], svc.image) && FineCount(cs[..i], svc.image) <= k
    decreases |cs|
  {
    var verdict := Judge(cs[0], svc, false, env);
    var next := if verdict.Settle? then Report(h, cs[0].id, true, Healthy) else h;
    if !verdict.Replace? && k == 0 {
      return 0;
    }
    var j := KeptAt(next, cs[1..], svc, env, if verdict.Replace? then k else k - 1);
    assert cs[..j + 1][1..] == cs[1..][..j];
    return j + 1;
  }

  /** If only one container settles and it may be kept, it is kept right behind the fine ones listed before it. */
  lemma {:induction false} KeptBehindFine(h: Host, cs: seq<Container>, svc: Service, env: Env, i: nat)
    requires i < |cs| && DistinctIds(cs) && Keepable(cs[i], svc.image)
    requires forall id :: env.inspected(id) && (env.settles(id) <==> id == cs[i].id)
    ensures var p := Partitioned(h, cs, svc, false, env);
            var k := FineCount(cs[..i], svc.image);
            p.ok && k < |p.keep| && p.keep[k] == cs[i].id
    decreases |cs|
  {
    var verdict := Judge(cs[0], svc, false, env);
    var next := if verdict.Settle? then Report(h, cs[0].id, true, Healthy) else h;
    if i > 0 {
      assert cs[0].id != cs[i].id;
      assert cs[..i][1..] == cs[1..][..i - 1];
      KeptBehindFine(next, cs[1..], svc, env, i - 1);
    } else {
      InspectedPartitionOk(next, cs[1..], svc, false, env);
    }
  }

  lemma {:induction false} InspectedPartitionOk(h: Host, cs: seq<Container>, svc: Service, secretsChanged: bool,
                                                env: Env)
    requires forall id :: env.inspected(id)
    ensures Partitioned(h, cs, svc, secretsChanged, env).ok
    decreases |cs|
  {
    if cs != [] {
      var settles := Judge(cs[0], svc, secretsChanged, env).Settle?;
      var next := if settles then Report(h, cs[0].id, true, Healthy) else h;
      InspectedPartitionOk(next, cs[1..], svc, secretsChanged, env);
    }
  }

  /** Whatever the plan leaves in place could stay when the deploy began. */
  lemma PlanKeepsStayers(h: Host, req: Request, env: Env, c: Container) returns (i: nat)
    requires h.Valid() && !req.secretsChanged
    requires Partitioned(h, Of(h.containers, req.name), req.svc, false, env).ok
    requires var p := Partitioned(h, Of(h.containers, req.name), req.svc, false, env);
             c in Of(Final(h, p.trace).containers, req.name) && c.id !in PlanFor(p, req.svc).replace
    ensures var cs := Of(h.containers, req.name);
            i < |cs| && CanStay(cs, i, req.svc) && SameMake(cs[i], c)
  {
    var s, cs := req.name, Of(h.containers, req.name);
    var p := Partitioned(h, cs, req.svc, false, env);
    var after := Of(Final(h, p.trace).containers, s);
    FreshId(h, s);
    PartitionIds(h, cs, req.svc, false, env);
    PartitionStates(h, s, cs, req.svc, false, env);
    var j :| 0 <= j < |after| && after[j] == c;
    assert cs[j] in cs && SameMake(cs[j], c);
    var k := KeptPosition(p, req.svc, c.id);
    i := KeptAt(h, cs, req.svc, env, k);
    assert i == j;
  }

  lemma KeptPosition(p: Partition, svc: Service, id: nat) returns (k: nat)
    requires id in p.keep + p.replace && id !in PlanFor(p, svc).replace
    ensures k < |p.keep| && k < DesiredReplicas(svc) && p.keep[k] == id
  {
    assert id !in p.replace;
    k :| 0 <= k < |p.keep| && p.keep[k] == id;
    var n := DesiredReplicas(svc);
    forall m | n <= m < |p.keep| ensures p.keep[m] in p.keep[n..] {
      assert p.keep[n..][m - n] == p.keep[m];
    }
  }

  lemma {:induction false} TearDownAllSpares(h: Host, ids: seq<nat>, env: Env, s: string, c: Container)
    requires h.Valid() && Owned(h, s, ids) && c in Of(h.containers, s) && c.id !in ids
    ensures c in Of(Final(h, TearDownAll(h, ids, env)).containers, s)
    decreases |ids|
  {
    if ids != [] {
      var first := TearDown(h, ids[0], env.teardown(ids[0]));
      var next := Final(h, first);
      assert ids[0] in ids;
      TearDownStates(h, ids[0], env.teardown(ids[0]), s);
      assert Torn(h, next, ids[0], s);
      OwnedLater(h, next, s, ids, ids[1..]);
      TearDownAllSpares(next, ids[1..], env, s, c);
      FinalConcat(h, first, TearDownAll(next, ids[1..], env));
    }
  }

  /** The rolling loop leaves alone what its removal list does not name. */
  lemma {:induction false} RollSpares(h: Host, job: Job, i: nat, replace: seq<nat>, env: Env, c: Container)
    requires h.Valid() && i <= job.needNew && Owned(h, job.service, replace)
    requires c in Of(h.containers, job.service) && c.id !in replace && Roll(h, job, i, replace, env).ok
    ensures c in Of(Final(h, Roll(h, job, i, replace, env).trace).containers, job.service)
    decreases job.needNew - i
  {
    var s := job.service;
    if i == job.needNew {
      TearDownAllSpares(h, replace, env, s, c);
    } else {
      var alive := env.fates(i).alive;
      var up := Final(h, Launch(h, job, i, alive, Judged(job), env));
      LaunchStates(h, job, i, alive, Judged(job), env);
      var next := Final(up, Swap(up, replace, env));
      OwnedLater(h, up, s, replace, replace);
      SwapSpares(up, replace, env, s, c);
      RollTurn(h, job, i, replace, env);
      RollSpares(next, job, i + 1, Rest(replace), env, c);
    }
  }

  lemma SwapSpares(up: Host, replace: seq<nat>, env: Env, s: string, c: Container)
    requires up.Valid() && Owned(up, s, replace) && c in Of(up.containers, s) && c.id !in replace
    ensures var next := Final(up, Swap(up, replace, env));
            next.Valid() && Owned(next, s, Rest(replace)) && c in Of(next.containers, s) && c.id !in Rest(replace)
  {
    if replace != [] {
      assert replace[0] in replace;
      TearDownStates(up, replace[0], env.teardown(replace[0]), s);
      assert Torn(up, Final(up, Swap(up, replace, env)), replace[0], s);
      OwnedLater(up, Final(up, Swap(up, replace, env)), s, replace, replace[1..]);
    }
  }

  // ---------------------------------------------------------------------------------------------
  // When every call goes well
  // ---------------------------------------------------------------------------------------------

  /** Nothing goes wrong, but of the starting containers only those accepted by `settles` become healthy. */
  function GoesWell(settles: nat -> bool): Env {
    Env(true, true, id => true, settles, i => Accepted(true), id => Teardown(true, true), i => "")
  }

  lemma {:induction false} RollGoesWell(h: Host, job: Job, i: nat, replace: seq<nat>, env: Env)
    requires i <= job.needNew && forall k {:trigger env.fates(k)} :: env.fates(k).Accepted?
    ensures Roll(h, job, i, replace, env).ok
    decreases job.needNew - i
  {
    if i < job.needNew {
      assert env.fates(i).Accepted?;
      RollTurn(h, job, i, replace, env);
      var up := Final(h, Launch(h, job, i, env.fates(i).alive, Judged(job), env));
      RollGoesWell(Final(up, Swap(up, replace, env)), job, i + 1, Rest(replace), env);
    }
  }

  /** Then only the port guard can stop a deploy. */
  lemma DeployGoesWell(h: Host, req: Request, settles: nat -> bool)
    ensures TeardownsSucceed(GoesWell(settles)) && AllAlive(GoesWell(settles))
    ensures DeployService(h, req, GoesWell(settles)).ok <==> !PortsCollide(req.svc)
  {
    var env, cs := GoesWell(settles), Of(h.containers, req.name);
    InspectedPartitionOk(h, cs, req.svc, req.secretsChanged, env);
    if !PortsCollide(req.svc) {
      var p := Partitioned(h, cs, req.svc, req.secretsChanged, env);
      var plan := PlanFor(p, req.svc);
      RollGoesWell(Final(h, p.trace), JobFor(req, plan), 0, plan.replace, env);
    }
  }

  // ---------------------------------------------------------------------------------------------
  // What a failed deploy leaves of its own service
  // ---------------------------------------------------------------------------------------------

  /** If the first of two replicas comes up and the second cannot be created, the first stays. */
  lemma FirstTurnStays(h: Host, job: Job, replace: seq<nat>, env: Env)
    requires h.Valid() && Listed(h, job.service, replace) && job.needNew >= 2
    requires env.fates(0) == Accepted(true) && env.fates(1) == CreateError
    ensures var roll := Roll(h, job, 0, replace, env);
            !roll.ok && exists c :: c in Of(Final(h, roll.trace).containers, job.service)
                                    && c.config == job.config && c.id == h.nextId
  {
    var s := job.service;
    var up := Final(h, Launch(h, job, 0, true, Judged(job), env));
    var c := NewContainer(h, job, 0, true, Judged(job), env);
    LaunchStates(h, job, 0, true, Judged(job), env);
    assert c in Of(up.containers, s);
    var next := Final(up, Swap(up, replace, env));
    if replace != [] {
      assert replace[0] in replace && replace[0] != h.nextId;
      ListedGrown(h, up, s, c, replace);
      TearDownStates(up, replace[0], env.teardown(replace[0]), s);
      assert Torn(up, next, replace[0], s);
    }
    assert c in Of(next.containers, s);
    RollTurn(h, job, 0, replace, env);
    assert Roll(next, job, 1, Rest(replace), env) == Run([], false);
  }

  /** A replica that fails is removed again. */
  predicate CleansUp(fate: Fate) {
    match fate
    case CreateError => true
    case StartError(cleanedUp) => cleanedUp
    case Refused(_, _, teardown) => teardown.removeOk
    case Accepted(_) => true
  }

  ghost predicate CleanupsWork(env: Env) {
    TeardownsSucceed(env) && forall i {:trigger env.fates(i)} :: CleansUp(env.fates(i))
  }

  /** How many containers every deploy that can look keeps, if it keeps that many at all. */
  ghost function CertainlyKept(h: Host, req: Request): nat {
    if req.secretsChanged then 0 else FineCount(Of(h.containers, req.name), req.svc.image)
  }

  /** If the deploy fails, its service has the containers it had, but for what has become healthy meanwhile. */
  ghost predicate FailsCleanly(h: Host, req: Request, env: Env) {
    var run := DeployService(h, req, env);
    !run.ok ==> SameShape(Of(h.containers, req.name), Of(Final(h, run.trace).containers, req.name))
  }

  lemma FailedLaunchUndone(h: Host, job: Job, i: nat, env: Env)
    requires h.Valid() && !env.fates(i).Accepted? && CleansUp(env.fates(i))
    ensures Of(Final(h, FailedLaunch(h, job, i, env)).containers, job.service) == Of(h.containers, job.service)
  {
    var s := job.service;
    FreshId(h, s);
    match env.fates(i)
    case CreateError =>
    case StartError(_) =>
      AfterCreate(h, s, Text.Decimal(job.keepCount + i) + "_" + env.stamps(i), job.config);
      AfterRemove(Create(h, InstanceName(job, i, env), job.config), h.nextId, s);
      DropHead(NewContainer(h, job, i, false, Starting, env), Of(h.containers, s));
    case Refused(running, health, teardown) =>
      var launch := Launch(h, job, i, running, health, env);
      LaunchStates(h, job, i, running, health, env);
      TearDownStates(Final(h, launch), h.nextId, teardown, s);
      FinalConcat(h, launch, TearDown(Final(h, launch), h.nextId, teardown));
      DropHead(NewContainer(h, job, i, running, health, env), Of(h.containers, s));
  }

  lemma {:induction false} KeptAtLeast(h: Host, cs: seq<Container>, svc: Service, env: Env)
    requires Partitioned(h, cs, svc, false, env).ok
    ensures |Partitioned(h, cs, svc, false, env).keep| >= FineCount(cs, svc.image)
    ensures (forall id :: !env.settles(id)) ==>
              |Partitioned(h, cs, svc, false, env).keep| == FineCount(cs, svc.image)
              && Partitioned(h, cs, svc, false, env).trace == []
    decreases |cs|
  {
    if cs != [] {
      var settles := Judge(cs[0], svc, false, env).Settle?;
      KeptAtLeast(if settles then Report(h, cs[0].id, true, Healthy) else h, cs[1..], svc, env);
    }
  }

  lemma {:induction false} AllReplaced(h: Host, cs: seq<Container>, svc: Service, env: Env)
    ensures var p := Partitioned(h, cs, svc, true, env); p.ok && p.trace == [] && p.keep == []
    decreases |cs|
  {
    if cs != [] {
      AllReplaced(h, cs[1..], svc, env);
    }
  }

  /** With at most one replica to create, a failure is its failure. */
  lemma OneReplicaFailsCleanly(h: Host, req: Request, env: Env)
    requires h.Valid() && CleanupsWork(env) && CertainlyKept(h, req) + 1 >= DesiredReplicas(req.svc)
    ensures FailsCleanly(h, req, env)
  {
    var s, cs := req.name, Of(h.containers, req.name);
    FreshId(h, s);
    PartitionStates(h, s, cs, req.svc, req.secretsChanged, env);
    var p := Partitioned(h, cs, req.svc, req.secretsChanged, env);
    if !PortsCollide(req.svc) && env.preflight && env.listed && p.ok {
      var plan, mid := PlanFor(p, req.svc), Final(h, p.trace);
      var job := JobFor(req, plan);
      if !req.secretsChanged {
        KeptAtLeast(h, cs, req.svc, env);
      }
      var roll := Roll(mid, job, 0, plan.replace, env);
      FinalConcat(h, p.trace, roll.trace);
      if job.needNew == 1 {
        if env.fates(0).Accepted? {
          RollTurn(mid, job, 0, plan.replace, env);
        } else {
          FailedLaunchUndone(mid, job, 0, env);
        }
      }
    }
  }

  /** The outcome in which the first replica comes up and no second can be created. */
  function OneComesUp(): Env {
    Env(true, true, id => true, id => false, i => if i == 0 then Accepted(true) else CreateError,
        id => Teardown(true, true), i => "")
  }

  lemma SecondReplicaFails(h: Host, req: Request)
    requires h.Valid() && !PortsCollide(req.svc) && CertainlyKept(h, req) + 1 < DesiredReplicas(req.svc)
    ensures !FailsCleanly(h, req, OneComesUp())
  {
    var s, cs, env := req.name, Of(h.containers, req.name), OneComesUp();
    InspectedPartitionOk(h, cs, req.svc, req.secretsChanged, env);
    if req.secretsChanged {
      AllReplaced(h, cs, req.svc, env);
    } else {
      KeptAtLeast(h, cs, req.svc, env);
    }
    PlanHolds(h, req, env);
    var plan := PlanFor(Partitioned(h, cs, req.svc, req.secretsChanged, env), req.svc);
    FirstTurnStays(h, JobFor(req, plan), plan.replace, env);
    var roll := Roll(h, JobFor(req, plan), 0, plan.replace, env);
    assert [] + roll.trace == roll.trace;
    NewIdChangesShape(h, Final(h, roll.trace), s);
  }

  lemma NewIdChangesShape(h: Host, w: Host, s: string)
    requires h.Valid() && exists c :: c in Of(w.containers, s) && c.id == h.nextId
    ensures !SameShape(Of(h.containers, s), Of(w.containers, s))
  {
    var was, now := Of(h.containers, s), Of(w.containers, s);
    var i :| 0 <= i < |now| && now[i].id == h.nextId;
    if SameShape(was, now) {
      OwnIdOfMember(h, was[i], s);
    }
  }

  /**
   With working cleanups and removals, a failed deploy leaves its own service as it was in all outcomes exactly when
   it never has more than one replica to create, or is refused for its ports. Nothing rolls the failing service back,
   so otherwise a first replica that came up stays.
   */
  lemma FailsCleanlyExactly(h: Host, req: Request)
    requires h.Valid()
    ensures (forall env :: CleanupsWork(env) ==> FailsCleanly(h, req, env))
            <==> PortsCollide(req.svc) || CertainlyKept(h, req) + 1 >= DesiredReplicas(req.svc)
  {
    if PortsCollide(req.svc) || CertainlyKept(h, req) + 1 >= DesiredReplicas(req.svc) {
      forall env | CleanupsWork(env) ensures FailsCleanly(h, req, env) {
        if !PortsCollide(req.svc) {
          OneReplicaFailsCleanly(h, req, env);
        }
      }
    } else {
      SecondReplicaFails(h, req);
      assert CleanupsWork(OneComesUp());
    }
  }

  // ---------------------------------------------------------------------------------------------
  // When a deploy is refused, and when it is broken off
  // ---------------------------------------------------------------------------------------------

  /** Several replicas with one entry that has a ':' before its first '/': refused before anything is touched. */
  lemma SeveralOnOnePortRefused(h: Host, req: Request, env: Env, entry: string)
    requires req.svc.replicas.Replicas? && req.svc.replicas.n >= 2
    requires entry in req.svc.ports && Ports.ColonFirst(entry)
    ensures DeployService(h, req, env) == Run([], false)
  {
    Ports.PublishedExactly(entry);
  }

  /** So are several replicas with an entry that binds a host port and has no ':' behind a '/'. */
  lemma SeveralOnOneBindingRefused(h: Host, req: Request, env: Env, entry: string, lib: Ports.Library)
    requires req.svc.replicas.Replicas? && req.svc.replicas.n >= 2
    requires entry in req.svc.ports && Ports.BindingOf(entry, lib).Some? && Ports.NoColonAfterSlash(entry)
    ensures DeployService(h, req, env) == Run([], false)
  {
    Ports.BindingNeedsColon(entry, lib);
    Ports.GuardMissesExactly(entry, lib);
  }

  ghost predicate CanSucceed(h: Host, req: Request) {
    exists env :: DeployService(h, req, env).ok
  }

  /** And nothing else is always refused. */
  lemma SucceedsExactly(h: Host, req: Request)
    ensures CanSucceed(h, req) <==>
              !(req.svc.replicas.Replicas? && req.svc.replicas.n >= 2
                && exists entry :: entry in req.svc.ports && Ports.ColonFirst(entry))
  {
    if entry :| entry in req.svc.ports && Ports.ColonFirst(entry) && req.svc.replicas.Replicas?
                && req.svc.replicas.n >= 2 {
      forall env ensures !DeployService(h, req, env).ok {
        SeveralOnOnePortRefused(h, req, env, entry);
      }
    } else {
      forall entry | entry in req.svc.ports && Ports.IsPublished(entry) ensures Ports.ColonFirst(entry) {
        Ports.PublishedExactly(entry);
      }
      DeployGoesWell(h, req, id => true);
      assert DeployService(h, req, GoesWell(id => true)).ok;
    }
  }

  /** Without its conditions, its image or the list of containers, a deploy ends before it touches anything. */
  lemma UnpreparedRefused(h: Host, req: Request, env: Env)
    requires !env.preflight || !env.listed
    ensures DeployService(h, req, env) == Run([], false)
  {
  }

  lemma {:induction false} PartitionOkExactly(h: Host, cs: seq<Container>, svc: Service, secretsChanged: bool, env: Env)
    ensures Partitioned(h, cs, svc, secretsChanged, env).ok <==>
              secretsChanged || forall c :: c in cs && c.config.image == svc.image ==> env.inspected(c.id)
    decreases |cs|
  {
    if cs != [] {
      var settles := Judge(cs[0], svc, secretsChanged, env).Settle?;
      PartitionOkExactly(if settles then Report(h, cs[0].id, true, Healthy) else h, cs[1..], svc, secretsChanged, env);
      assert forall c :: c in cs <==> c == cs[0] || c in cs[1..];
    }
  }

  lemma {:induction false} PartitionKeepsShape(h: Host, cs: seq<Container>, svc: Service, secretsChanged: bool,
                                               env: Env)
    ensures forall w :: w in Partitioned(h, cs, svc, secretsChanged, env).trace ==>
              w.nextId == h.nextId && SameShape(h.containers, w.containers)
    decreases |cs|
  {
    if cs != [] {
      if Judge(cs[0], svc, secretsChanged, env).Settle? {
        var settled := Report(h, cs[0].id, true, Healthy);
        AmendEffect(h.containers, cs[0].id, Reports(true, Healthy));
        PartitionKeepsShape(settled, cs[1..], svc, secretsChanged, env);
        forall w | w in Partitioned(settled, cs[1..], svc, secretsChanged, env).trace
          ensures SameShape(h.containers, w.containers) {
          SameShapeTransitive(h.containers, settled.containers, w.containers);
        }
      } else {
        PartitionKeepsShape(h, cs[1..], svc, secretsChanged, env);
      }
    }
  }

  /** A container on the right image that cannot be inspected breaks the deploy off with nothing created or removed. */
  lemma UninspectedBreaksOff(h: Host, req: Request, env: Env, c: Container)
    requires !req.secretsChanged && c in Of(h.containers, req.name)
    requires c.config.image == req.svc.image && !env.inspected(c.id)
    ensures var run := DeployService(h, req, env);
            !run.ok && forall w :: w in run.trace ==> w.nextId == h.nextId && SameShape(h.containers, w.containers)
  {
    PartitionOkExactly(h, Of(h.containers, req.name), req.svc, false, env);
    PartitionKeepsShape(h, Of(h.containers, req.name), req.svc, false, env);
  }

  // ---------------------------------------------------------------------------------------------
  // How replicas are named, and how containers go
  // ---------------------------------------------------------------------------------------------

  /** The k-th new replica, numbered on from the containers kept. */
  ghost predicate HasReplica(w: Host, job: Job, id: nat, k: nat, env: Env) {
    exists c :: c in Of(w.containers, job.service) && c.id == id && c.config == job.config
                && c.name == "/" + (job.service + "_" + (Text.Decimal(job.keepCount + k) + "_" + env.stamps(k)))
  }

  lemma FirstReplicaNamed(h: Host, job: Job, i: nat, replace: seq<nat>, env: Env)
    requires h.Valid() && i < job.needNew && TeardownsSucceed(env) && Listed(h, job.service, replace)
    requires Roll(h, job, i, replace, env).ok
    ensures HasReplica(Final(h, Roll(h, job, i, replace, env).trace), job, h.nextId, i, env)
  {
    var s, alive := job.service, env.fates(i).alive;
    var up := Final(h, Launch(h, job, i, alive, Judged(job), env));
    var c := NewContainer(h, job, i, alive, Judged(job), env);
    LaunchStates(h, job, i, alive, Judged(job), env);
    LaunchKeepsListed(h, job, i, replace, env);
    SwapKeepsListed(up, replace, env, s);
    assert c in Of(up.containers, s) && forall id :: id in replace ==> id != c.id;
    SwapSpares(up, replace, env, s, c);
    RollTurn(h, job, i, replace, env);
    RollSpares(Final(up, Swap(up, replace, env)), job, i + 1, Rest(replace), env, c);
  }

  /** A successful rollout leaves every replica it created, numbered on from the containers kept, in order of ids. */
  lemma {:induction false} RollNames(h: Host, job: Job, i: nat, replace: seq<nat>, env: Env, k: nat)
    requires h.Valid() && i <= k < job.needNew && TeardownsSucceed(env) && Listed(h, job.service, replace)
    requires Roll(h, job, i, replace, env).ok
    ensures HasReplica(Final(h, Roll(h, job, i, replace, env).trace), job, h.nextId + (k - i), k, env)
    decreases job.needNew - i
  {
    if k == i {
      FirstReplicaNamed(h, job, i, replace, env);
    } else {
      var up := Final(h, Launch(h, job, i, env.fates(i).alive, Judged(job), env));
      TurnKeepsListed(h, job, i, replace, env);
      RollNames(Final(up, Swap(up, replace, env)), job, i + 1, Rest(replace), env, k);
    }
  }

  /** One turn of a successful rollout, and that the rest of it is one from there. */
  lemma TurnKeepsListed(h: Host, job: Job, i: nat, replace: seq<nat>, env: Env)
    requires h.Valid() && i < job.needNew && TeardownsSucceed(env) && Listed(h, job.service, replace)
    requires Roll(h, job, i, replace, env).ok
    ensures env.fates(i).Accepted?
    ensures var up := Final(h, Launch(h, job, i, env.fates(i).alive, Judged(job), env));
            var next := Final(up, Swap(up, replace, env));
            var rest := Roll(next, job, i + 1, Rest(replace), env);
            && next.Valid() && next.nextId == h.nextId + 1 && Listed(next, job.service, Rest(replace)) && rest.ok
            && Final(h, Roll(h, job, i, replace, env).trace) == Final(next, rest.trace)
  {
    var up := Final(h, Launch(h, job, i, env.fates(i).alive, Judged(job), env));
    LaunchKeepsListed(h, job, i, replace, env);
    SwapKeepsListed(up, replace, env, job.service);
    RollTurn(h, job, i, replace, env);
  }

  lemma LaunchKeepsListed(h: Host, job: Job, i: nat, replace: seq<nat>, env: Env)
    requires h.Valid() && Listed(h, job.service, replace) && env.fates(i).Accepted?
    ensures var up := Final(h, Launch(h, job, i, env.fates(i).alive, Judged(job), env));
            up.Valid() && up.nextId == h.nextId + 1 && Listed(up, job.service, replace)
            && Owned(up, job.service, replace)
  {
    var alive := env.fates(i).alive;
    LaunchStates(h, job, i, alive, Judged(job), env);
    ListedGrown(h, Final(h, Launch(h, job, i, alive, Judged(job), env)), job.service,
                NewContainer(h, job, i, alive, Judged(job), env), replace);
  }

  lemma SwapKeepsListed(up: Host, replace: seq<nat>, env: Env, s: string)
    requires up.Valid() && TeardownsSucceed(env) && Listed(up, s, replace)
    ensures var next := Final(up, Swap(up, replace, env));
            next.Valid() && next.nextId == up.nextId && Listed(next, s, Rest(replace)) && Owned(next, s, Rest(replace))
  {
    if replace != [] {
      var t := env.teardown(replace[0]);
      assert replace[0] in replace;
      RemovedExactly(up, replace, env, s);
      TearDownStates(up, replace[0], t, s);
      assert Torn(up, Final(up, TearDown(up, replace[0], t)), replace[0], s);
      ListedAfterDrop(up, Final(up, TearDown(up, replace[0], t)), s, replace);
    }
  }

  /** A container is stopped, if it can be, before it is removed: no state skips from running to gone. */
  lemma StopsBeforeRemoving(h: Host, id: nat, t: Teardown, c: Container)
    requires t.stopOk && c in h.containers && c.id == id
    ensures var trace := TearDown(h, id, t);
            && trace != [] && c.(running := false) in trace[0].containers
            && (t.removeOk ==> |trace| == 2 && forall d :: d in trace[1].containers ==> d.id != id)
            && (!t.removeOk ==> |trace| == 1)
  {
    AmendEffect(h.containers, id, Halted);
    var i :| 0 <= i < |h.containers| && h.containers[i] == c;
    assert Amend(h.containers, id, Halted)[i] == c.(running := false);
    DropMembers(Stop(h, id).containers, id);
  }

  // ---------------------------------------------------------------------------------------------
  // Which services a deploy can touch
  // ---------------------------------------------------------------------------------------------

  lemma OthersSeeNothing(h: Host, w: Host, s: string, t: string)
    requires Apart(h, w, s) && !Clash(s, t)
    ensures Of(w.containers, t) == Of(h.containers, t)
  {
    OfFromOthers(h.containers, s, t);
    OfFromOthers(w.containers, s, t);
  }

  lemma ClearSymmetric(s: string, t: string)
    ensures Clash(s, t) <==> Clash(t, s)
  {
  }

  /** In no state of any deploy of the request is a container listed for t added, lost or changed. */
  ghost predicate LeavesAlone(h: Host, req: Request, env: Env, t: string) {
    forall w :: w in DeployService(h, req, env).trace ==> Of(w.containers, t) == Of(h.containers, t)
  }

  /** A host whose one container bears the given name, on the image "old". */
  function Namesake(name: string, stack: string, service: string): Host {
    Host([Container(0, name, Config("old", true, stack, service, [], ""), true, NoCheck)], 1)
  }

  /** One replica of the service, on the image "new". */
  function Renewal(s: string, stack: string): Request {
    Request(s, Service("new", Unset, [], false, [], ""), stack, [], false)
  }

  /** Whatever one name of the two services claims is removed when it is listed for both and one is deployed. */
  lemma NamesakeRemoved(s: string, t: string, name: string, stack: string, service: string)
    requires MatchesServiceName(name, s) && MatchesServiceName(name, t)
    ensures var h := Namesake(name, stack, service);
            var run := DeployService(h, Renewal(s, stack), GoesWell(id => true));
            && h.Valid() && run.ok && Of(h.containers, t) == h.containers
            && h.containers[0] !in Final(h, run.trace).containers
  {
    var h, req, env := Namesake(name, stack, service), Renewal(s, stack), GoesWell(id => true);
    assert h.containers[1..] == [];
    DeployGoesWell(h, req, id => true);
    DeployConverges(h, req, env);
    OfMembers(Final(h, DeployService(h, req, env).trace).containers, s);
  }

  /**
   Deploys of s leave another service t alone, on every host and in every state, exactly when neither name is the
   other's followed by '_'. Containers are found by name, so otherwise one service takes the other's for its own.
   */
  lemma OtherServiceSafeExactly(s: string, t: string)
    requires s != t
    ensures (forall h: Host, req: Request, env :: h.Valid() && req.name == s ==> LeavesAlone(h, req, env, t))
            <==> !Clash(s, t)
  {
    if Clash(s, t) {
      SharedNameExactlyWhenClash(s, t);
      var name :| MatchesServiceName(name, s) && MatchesServiceName(name, t);
      var h, req, env := Namesake(name, "", ""), Renewal(s, ""), GoesWell(id => true);
      NamesakeRemoved(s, t, name, "", "");
      var trace := DeployService(h, req, env).trace;
      OfMembers(Final(h, trace).containers, t);
      assert h.containers[0] in Of(h.containers, t) && Final(h, trace) in trace;
      assert !LeavesAlone(h, req, env, t);
    } else {
      forall h: Host, req: Request, env | h.Valid() && req.name == s ensures LeavesAlone(h, req, env, t) {
        DeployTouchesOnlyItsService(h, req, env);
        forall w | w in DeployService(h, req, env).trace ensures Of(w.containers, t) == Of(h.containers, t) {
          OthersSeeNothing(h, w, s, t);
        }
      }
    }
  }

  /** Deploying "web" removes the running replica "/web_app_1" of the service "web_app" of the same stack. */
  lemma WebTakesWebApp()
    ensures var h := Namesake("/web_app_1", "shop", "web_app");
            var run := DeployService(h, Renewal("web", "shop"), GoesWell(id => true));
            && Of(h.containers, "web_app") == h.containers && run.ok
            && h.containers[0] !in Final(h, run.trace).containers
  {
    assert "/web_app_1"[1..] == "web_app_1" && "web_app_1"[..3] == "web" && "web_app_1"[..7] == "web_app";
    NamesakeRemoved("web", "web_app", "/web_app_1", "shop", "web_app");
  }

  // ---------------------------------------------------------------------------------------------
  // A second deploy
  // ---------------------------------------------------------------------------------------------

  lemma {:induction false} NothingToReplace(h: Host, existing: seq<Container>, svc: Service, env: Env)
    requires forall c :: c in existing ==> Fine(c, svc.image) && env.inspected(c.id)
    ensures var p := Partitioned(h, existing, svc, false, env);
            p.ok && p.trace == [] && p.replace == [] && |p.keep| == |existing|
    decreases |existing|
  {
    if existing != [] {
      assert existing[0] in existing && forall d :: d in existing[1..] ==> d in existing;
      NothingToReplace(h, existing[1..], svc, env);
    }
  }

  /**
   Deploying again right after a success, with the same compose service and unchanged secrets, makes no Docker
   change at all and succeeds, as long as the second run can look.
   */
  lemma SecondDeployDoesNothing(h: Host, req: Request, env: Env, again: Env)
    requires h.Valid() && TeardownsSucceed(env) && AllAlive(env) && DeployService(h, req, env).ok
    requires again.preflight && again.listed && forall id :: again.inspected(id)
    ensures DeployService(Final(h, DeployService(h, req, env).trace), req.(secretsChanged := false), again)
            == Run([], true)
  {
    DeployConverges(h, req, env);
    var end := Final(h, DeployService(h, req, env).trace);
    NothingToReplace(end, Of(end.containers, req.name), req.svc, again);
  }
}

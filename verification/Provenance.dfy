/** Where the containers of a host come from: whatever happens, each was there before or created by this deploy. */
module Provenance {
  import opened Containers
  import opened Rollout
  import opened RolloutProofs
  import opened RolloutTheorems
  import opened StackRollout
  import Text

  /** The host has a container of this name and configuration. */
  ghost predicate HadAlready(h: Host, name: string, config: Config) {
    exists d :: d in h.containers && d.name == name && d.config == config
  }

  /** Every container of w was known on h, or bears the service's name and one of these configurations. */
  ghost predicate From(h: Host, w: Host, s: string, configs: set<Config>) {
    forall c :: c in w.containers ==>
      HadAlready(h, c.name, c.config) || (MatchesServiceName(c.name, s) && c.config in configs)
  }

  lemma FromSelf(h: Host, s: string, configs: set<Config>)
    ensures From(h, h, s, configs)
  {
  }

  lemma FromThen(h: Host, mid: Host, w: Host, s: string, configs: set<Config>)
    requires From(h, mid, s, configs) && From(mid, w, s, configs)
    ensures From(h, w, s, configs)
  {
    forall c | c in w.containers
      ensures HadAlready(h, c.name, c.config) || (MatchesServiceName(c.name, s) && c.config in configs)
    {
      if HadAlready(mid, c.name, c.config) {
        var d :| d in mid.containers && d.name == c.name && d.config == c.config;
      }
    }
  }

  lemma FromAmend(h: Host, id: nat, change: Change, s: string, configs: set<Config>)
    ensures From(h, h.(containers := Amend(h.containers, id, change)), s, configs)
  {
    var cs := h.containers;
    AmendEffect(cs, id, change);
    forall c | c in Amend(cs, id, change) ensures HadAlready(h, c.name, c.config) {
      var i :| 0 <= i < |cs| && Amend(cs, id, change)[i] == c;
      assert cs[i] in cs;
    }
  }

  lemma FromRemove(h: Host, id: nat, s: string, configs: set<Config>)
    ensures From(h, Remove(h, id), s, configs)
  {
    DropMembers(h.containers, id);
  }

  lemma FromCreate(h: Host, s: string, suffix: string, config: Config, configs: set<Config>)
    requires config in configs
    ensures From(h, Create(h, s + "_" + suffix, config), s, configs)
  {
    InstanceNameMatches(s, suffix);
    var created := Create(h, s + "_" + suffix, config);
    assert created.containers[1..] == h.containers;
  }

  lemma FromTearDown(h: Host, id: nat, t: Teardown, s: string, configs: set<Config>)
    ensures From(h, Final(h, TearDown(h, id, t)), s, configs)
  {
    FromSelf(h, s, configs);
    FromAmend(h, id, Halted, s, configs);
    FromRemove(h, id, s, configs);
    FromRemove(Stop(h, id), id, s, configs);
    FromThen(h, Stop(h, id), Remove(Stop(h, id), id), s, configs);
  }

  lemma {:induction false} FromTearDownAll(h: Host, ids: seq<nat>, env: Env, s: string, configs: set<Config>)
    ensures From(h, Final(h, TearDownAll(h, ids, env)), s, configs)
    decreases |ids|
  {
    if ids == [] {
      FromSelf(h, s, configs);
    } else {
      var first := TearDown(h, ids[0], env.teardown(ids[0]));
      var mid := Final(h, first);
      FromTearDown(h, ids[0], env.teardown(ids[0]), s, configs);
      FromTearDownAll(mid, ids[1..], env, s, configs);
      FinalConcat(h, first, TearDownAll(mid, ids[1..], env));
      FromThen(h, mid, Final(mid, TearDownAll(mid, ids[1..], env)), s, configs);
    }
  }

  lemma FromLaunch(h: Host, job: Job, i: nat, running: bool, health: Health, env: Env, configs: set<Config>)
    requires job.config in configs
    ensures From(h, Final(h, Launch(h, job, i, running, health, env)), job.service, configs)
  {
    var s := job.service;
    var created := Create(h, InstanceName(job, i, env), job.config);
    var started := Report(created, h.nextId, true, Starting);
    var up := Report(started, h.nextId, running, health);
    FromCreate(h, s, Text.Decimal(job.keepCount + i) + "_" + env.stamps(i), job.config, configs);
    FromAmend(created, h.nextId, Reports(true, Starting), s, configs);
    FromAmend(started, h.nextId, Reports(running, health), s, configs);
    FromThen(h, created, started, s, configs);
    FromThen(h, started, up, s, configs);
  }

  lemma FromFailedLaunch(h: Host, job: Job, i: nat, env: Env, configs: set<Config>)
    requires !env.fates(i).Accepted? && job.config in configs
    ensures From(h, Final(h, FailedLaunch(h, job, i, env)), job.service, configs)
  {
    var s := job.service;
    match env.fates(i)
    case CreateError =>
      FromSelf(h, s, configs);
    case StartError(cleanedUp) =>
      var created := Create(h, InstanceName(job, i, env), job.config);
      FromCreate(h, s, Text.Decimal(job.keepCount + i) + "_" + env.stamps(i), job.config, configs);
      FromRemove(created, h.nextId, s, configs);
      FromThen(h, created, Remove(created, h.nextId), s, configs);
    case Refused(running, health, teardown) =>
      var launch := Launch(h, job, i, running, health, env);
      var up := Final(h, launch);
      FromLaunch(h, job, i, running, health, env, configs);
      FromTearDown(up, h.nextId, teardown, s, configs);
      FinalConcat(h, launch, TearDown(up, h.nextId, teardown));
      FromThen(h, up, Final(up, TearDown(up, h.nextId, teardown)), s, configs);
  }

  lemma FromSwap(up: Host, replace: seq<nat>, env: Env, s: string, configs: set<Config>)
    ensures From(up, Final(up, Swap(up, replace, env)), s, configs)
  {
    if replace == [] {
      FromSelf(up, s, configs);
    } else {
      FromTearDown(up, replace[0], env.teardown(replace[0]), s, configs);
    }
  }

  lemma {:induction false} FromRoll(h: Host, job: Job, i: nat, replace: seq<nat>, env: Env, configs: set<Config>)
    requires i <= job.needNew && job.config in configs
    ensures From(h, Final(h, Roll(h, job, i, replace, env).trace), job.service, configs)
    decreases job.needNew - i
  {
    var s := job.service;
    if i == job.needNew {
      FromTearDownAll(h, replace, env, s, configs);
    } else if !env.fates(i).Accepted? {
      FromFailedLaunch(h, job, i, env, configs);
    } else {
      var up := Final(h, Launch(h, job, i, env.fates(i).alive, Judged(job), env));
      var next := Final(up, Swap(up, replace, env));
      FromLaunch(h, job, i, env.fates(i).alive, Judged(job), env, configs);
      FromSwap(up, replace, env, s, configs);
      RollTurn(h, job, i, replace, env);
      FromRoll(next, job, i + 1, Rest(replace), env, configs);
      FromThen(h, up, next, s, configs);
      FromThen(h, next, Final(next, Roll(next, job, i + 1, Rest(replace), env).trace), s, configs);
    }
  }

  lemma {:induction false} FromPartition(h: Host, cs: seq<Container>, svc: Service, secretsChanged: bool, env: Env,
                                         s: string, configs: set<Config>)
    ensures From(h, Final(h, Partitioned(h, cs, svc, secretsChanged, env).trace), s, configs)
    decreases |cs|
  {
    FromSelf(h, s, configs);
    if cs != [] {
      if Judge(cs[0], svc, secretsChanged, env).Settle? {
        var settled := Report(h, cs[0].id, true, Healthy);
        var rest := Partitioned(settled, cs[1..], svc, secretsChanged, env).trace;
        FromAmend(h, cs[0].id, Reports(true, Healthy), s, configs);
        FromPartition(settled, cs[1..], svc, secretsChanged, env, s, configs);
        FinalConcat(h, [settled], rest);
        FromThen(h, settled, Final(settled, rest), s, configs);
      } else {
        FromPartition(h, cs[1..], svc, secretsChanged, env, s, configs);
      }
    }
  }

  /** However a deploy ends, each container was there before it or was created by it. */
  lemma FromDeploy(h: Host, req: Request, env: Env)
    ensures From(h, Final(h, DeployService(h, req, env).trace), req.name,
                 {ConfigFor(req.name, req.svc, req.stack, req.secrets)})
  {
    var s, configs := req.name, {ConfigFor(req.name, req.svc, req.stack, req.secrets)};
    FromSelf(h, s, configs);
    if !PortsCollide(req.svc) && env.preflight && env.listed {
      var p := Partitioned(h, Of(h.containers, s), req.svc, req.secretsChanged, env);
      FromPartition(h, Of(h.containers, s), req.svc, req.secretsChanged, env, s, configs);
      if p.ok {
        var plan, mid := PlanFor(p, req.svc), Final(h, p.trace);
        var roll := Roll(mid, JobFor(req, plan), 0, plan.replace, env);
        FromRoll(mid, JobFor(req, plan), 0, plan.replace, env, configs);
        FinalConcat(h, p.trace, roll.trace);
        FromThen(h, mid, Final(mid, roll.trace), s, configs);
      }
    }
  }

  lemma {:induction false} FromRemoveCurrent(h: Host, ids: seq<nat>, r: RollbackEnv, s: string, configs: set<Config>)
    ensures From(h, Final(h, RemoveCurrent(h, ids, r).trace), s, configs)
    decreases |ids|
  {
    if ids == [] {
      FromSelf(h, s, configs);
    } else {
      var t := Teardown(r.stopOk(ids[0]), r.removeOk(ids[0]));
      var step := TearDown(h, ids[0], t);
      var mid := Final(h, step);
      FromTearDown(h, ids[0], t, s, configs);
      if r.removeOk(ids[0]) {
        FromRemoveCurrent(mid, ids[1..], r, s, configs);
        FinalConcat(h, step, RemoveCurrent(mid, ids[1..], r).trace);
        FromThen(h, mid, Final(mid, RemoveCurrent(mid, ids[1..], r).trace), s, configs);
      }
    }
  }

  lemma {:induction false} FromRecreate(h: Host, s: string, snapshot: Snapshot, i: nat, r: RollbackEnv,
                                        configs: set<Config>)
    requires i <= |snapshot| && forall c :: c in snapshot ==> c in configs
    ensures From(h, Final(h, Recreate(h, s, snapshot, i, r).trace), s, configs)
    decreases |snapshot| - i
  {
    FromSelf(h, s, configs);
    if i < |snapshot| && r.createOk(i) {
      var created := Create(h, RollbackName(s, i, r), snapshot[i]);
      FromCreate(h, s, "rollback_" + Text.Decimal(i) + "_" + r.stamps(i), snapshot[i], configs);
      if r.startOk(i) {
        var started := Report(created, h.nextId, true, r.health(i));
        var rest := Recreate(started, s, snapshot, i + 1, r).trace;
        FromAmend(created, h.nextId, Reports(true, r.health(i)), s, configs);
        FromThen(h, created, started, s, configs);
        FromRecreate(started, s, snapshot, i + 1, r, configs);
        FinalConcat(h, [created, started], rest);
        FromThen(h, started, Final(started, rest), s, configs);
      }
    }
  }

  /** However the rollback of a service ends, each container was there before it or is one of the snapshot. */
  lemma FromRollback(h: Host, s: string, before: Host, env: StackEnv)
    ensures From(h, Final(h, RollbackStep(h, s, before, env)), s, ConfigsIn(before, s))
  {
    var snapshot, r, configs := Configs(Of(before.containers, s)), env.rollback(s), ConfigsIn(before, s);
    FromSelf(h, s, configs);
    if env.captured(s) && snapshot != [] && r.listed {
      var removed := RemoveCurrent(h, Ids(Of(h.containers, s)), r);
      var mid := Final(h, removed.trace);
      var created := Recreate(mid, s, snapshot, 0, r);
      SnapshotConfigs(before, s);
      FromRemoveCurrent(h, Ids(Of(h.containers, s)), r, s, configs);
      FromRecreate(mid, s, snapshot, 0, r, configs);
      FinalConcat(h, removed.trace, created.trace);
      FromThen(h, mid, Final(mid, created.trace), s, configs);
    }
  }

  // ---------------------------------------------------------------------------------------------
  // The configurations of one service's containers
  // ---------------------------------------------------------------------------------------------

  function ConfigsIn(h: Host, s: string): set<Config> {
    set c | c in Of(h.containers, s) :: c.config
  }

  lemma SnapshotConfigs(h: Host, s: string)
    ensures forall c :: c in Configs(Of(h.containers, s)) ==> c in ConfigsIn(h, s)
  {
    var snapshot := Configs(Of(h.containers, s));
    forall c | c in snapshot ensures c in ConfigsIn(h, s) {
      var i :| 0 <= i < |snapshot| && snapshot[i] == c;
      assert Of(h.containers, s)[i] in Of(h.containers, s);
    }
  }

  lemma FromConfigs(h: Host, w: Host, s: string, configs: set<Config>)
    requires From(h, w, s, configs)
    ensures ConfigsIn(w, s) <= ConfigsIn(h, s) + configs
  {
    OfMembers(h.containers, s);
    OfMembers(w.containers, s);
    forall c | c in Of(w.containers, s) && c.config !in configs ensures c.config in ConfigsIn(h, s) {
      var d :| d in h.containers && d.name == c.name && d.config == c.config;
      assert d in Of(h.containers, s);
    }
  }
}

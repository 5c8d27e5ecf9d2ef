/** deployService as the deployer runs it: one Docker call after another against a mutable host. */
module Deployer {
  import opened Containers
  import opened Rollout
  import Ports
  import RolloutProofs
  import Text

  /** The Docker daemon. `trace` records every state after a call that changed something. */
  class Docker {
    var host: Host
    ghost var trace: seq<Host>

    constructor (h: Host)
      ensures host == h && trace == []
    {
      host, trace := h, [];
    }

    method ContainerCreate(name: string, config: Config) returns (id: nat)
      modifies this
      ensures host == Create(old(host), name, config) && id == old(host.nextId)
      ensures trace == old(trace) + [host]
    {
      id := host.nextId;
      host := Create(host, name, config);
      trace := trace + [host];
    }

    /** A container's reported state changes: it started, became healthy, or died. */
    method StateChanges(id: nat, running: bool, health: Health)
      modifies this
      ensures host == Report(old(host), id, running, health)
      ensures trace == old(trace) + [host]
    {
      host := Report(host, id, running, health);
      trace := trace + [host];
    }

    method ContainerStop(id: nat)
      modifies this
      ensures host == Stop(old(host), id)
      ensures trace == old(trace) + [host]
    {
      host := Stop(host, id);
      trace := trace + [host];
    }

    method ContainerRemove(id: nat)
      modifies this
      ensures host == Remove(old(host), id)
      ensures trace == old(trace) + [host]
    {
      host := Remove(host, id);
      trace := trace + [host];
    }
  }

  method GetServiceContainers(docker: Docker, service: string) returns (matched: seq<Container>)
    ensures matched == Of(docker.host.containers, service)
  {
    matched := [];
    var all := docker.host.containers;
    for i := 0 to |all|
      invariant Of(all, service) == matched + Of(all[i..], service)
    {
      if MatchesServiceName(all[i].name, service) {
        matched := matched + [all[i]];
      }
      assert all[i..][1..] == all[i + 1..];
    }
  }

  /** stopAndRemove: both errors are logged and ignored. */
  method StopAndRemove(docker: Docker, id: nat, outcome: Teardown)
    modifies docker
    ensures docker.trace == old(docker.trace) + TearDown(old(docker.host), id, outcome)
    ensures docker.host == Final(old(docker.host), TearDown(old(docker.host), id, outcome))
  {
    if outcome.stopOk {
      docker.ContainerStop(id);
    }
    if outcome.removeOk {
      docker.ContainerRemove(id);
    }
  }

  /** The partition so far, followed by what the rest amounts to, is the whole partition. */
  ghost predicate Onward(whole: Partition, done: seq<Host>, keep: seq<nat>, replace: seq<nat>, rest: Partition) {
    && whole.trace == done + rest.trace && whole.ok == rest.ok
    && (rest.ok ==> whole.keep == keep + rest.keep && whole.replace == replace + rest.replace)
  }

  lemma OnwardOne(whole: Partition, h: Host, done: seq<Host>, keep: seq<nat>, replace: seq<nat>,
                  existing: seq<Container>, svc: Service, secretsChanged: bool, env: Env)
    requires existing != [] && Onward(whole, done, keep, replace, Partitioned(h, existing, svc, secretsChanged, env))
    ensures var id, tail := existing[0].id, existing[1..];
            var settled := Report(h, id, true, Healthy);
            match Judge(existing[0], svc, secretsChanged, env)
            case CannotTell => !whole.ok && whole.trace == done
            case Replace => Onward(whole, done, keep, replace + [id], Partitioned(h, tail, svc, secretsChanged, env))
            case Keep => Onward(whole, done, keep + [id], replace, Partitioned(h, tail, svc, secretsChanged, env))
            case Settle =>
              Onward(whole, done + [settled], keep + [id], replace,
                     Partitioned(settled, tail, svc, secretsChanged, env))
  {
  }

  method PartitionExisting(docker: Docker, existing: seq<Container>, svc: Service, secretsChanged: bool, env: Env)
      returns (keep: seq<nat>, replace: seq<nat>, ok: bool)
    modifies docker
    ensures var p := Partitioned(old(docker.host), existing, svc, secretsChanged, env);
            && docker.trace == old(docker.trace) + p.trace && docker.host == Final(old(docker.host), p.trace)
            && ok == p.ok && (ok ==> keep == p.keep && replace == p.replace)
  {
    keep, replace, ok := [], [], true;
    ghost var whole := Partitioned(docker.host, existing, svc, secretsChanged, env);
    ghost var done: seq<Host> := [];
    for i := 0 to |existing|
      invariant docker.trace == old(docker.trace) + done && docker.host == Final(old(docker.host), done)
      invariant Onward(whole, done, keep, replace, Partitioned(docker.host, existing[i..], svc, secretsChanged, env))
    {
      var c := existing[i];
      OnwardOne(whole, docker.host, done, keep, replace, existing[i..], svc, secretsChanged, env);
      assert existing[i..][0] == c && existing[i..][1..] == existing[i + 1..];
      match Judge(c, svc, secretsChanged, env) {
        case CannotTell =>
          return keep, replace, false;
        case Replace =>
          replace := replace + [c.id];
        case Keep =>
          keep := keep + [c.id];
        case Settle =>
          docker.StateChanges(c.id, true, Healthy);
          keep := keep + [c.id];
          done := done + [docker.host];
      }
    }
    assert existing[|existing|..] == [];
  }

  /** createAndStartContainer when it succeeds, and the state waitForHealthy then finds the container in. */
  method StartReplica(docker: Docker, job: Job, i: nat, running: bool, health: Health, env: Env) returns (id: nat)
    modifies docker
    ensures id == old(docker.host.nextId)
    ensures var launch := Launch(old(docker.host), job, i, running, health, env);
            docker.trace == old(docker.trace) + launch && docker.host == Final(old(docker.host), launch)
  {
    id := docker.ContainerCreate(InstanceName(job, i, env), job.config);
    docker.StateChanges(id, true, Starting);
    docker.StateChanges(id, running, health);
  }

  /** createAndStartContainer followed by waitForHealthy, for the i-th new replica. */
  method CreateReplica(docker: Docker, job: Job, i: nat, env: Env) returns (ok: bool)
    modifies docker
    ensures ok == env.fates(i).Accepted?
    ensures ok ==> var launch := Launch(old(docker.host), job, i, env.fates(i).alive, Judged(job), env);
                   docker.trace == old(docker.trace) + launch && docker.host == Final(old(docker.host), launch)
    ensures !ok ==> var failed := FailedLaunch(old(docker.host), job, i, env);
                    docker.trace == old(docker.trace) + failed && docker.host == Final(old(docker.host), failed)
  {
    match env.fates(i) {
      case CreateError =>
        return false;
      case StartError(cleanedUp) =>
        var id := docker.ContainerCreate(InstanceName(job, i, env), job.config);
        if cleanedUp {
          docker.ContainerRemove(id);
        }
        return false;
      case Refused(running, health, teardown) =>
        var id := StartReplica(docker, job, i, running, health, env);
        ghost var launch := Launch(old(docker.host), job, i, running, health, env);
        StopAndRemove(docker, id, teardown);
        ghost var torn := TearDown(Final(old(docker.host), launch), id, teardown);
        RolloutProofs.FinalConcat(old(docker.host), launch, torn);
        Text.Associate(old(docker.trace), launch, torn);
        return false;
      case Accepted(alive) =>
        var _ := StartReplica(docker, job, i, alive, Judged(job), env);
        return true;
    }
  }

  lemma LeftoversOne(h: Host, done: seq<Host>, replace: seq<nat>, env: Env, whole: seq<Host>)
    requires replace != [] && whole == done + TearDownAll(h, replace, env)
    ensures var step := TearDown(h, replace[0], env.teardown(replace[0]));
            whole == done + step + TearDownAll(Final(h, step), replace[1..], env)
  {
    var step := TearDown(h, replace[0], env.teardown(replace[0]));
    Text.Associate(done, step, TearDownAll(Final(h, step), replace[1..], env));
  }

  method RemoveLeftovers(docker: Docker, replace: seq<nat>, env: Env)
    modifies docker
    ensures docker.trace == old(docker.trace) + TearDownAll(old(docker.host), replace, env)
    ensures docker.host == Final(old(docker.host), TearDownAll(old(docker.host), replace, env))
  {
    ghost var whole := TearDownAll(docker.host, replace, env);
    ghost var done: seq<Host> := [];
    for i := 0 to |replace|
      invariant docker.trace == old(docker.trace) + done && docker.host == Final(old(docker.host), done)
      invariant whole == done + TearDownAll(docker.host, replace[i..], env)
    {
      ghost var step := TearDown(docker.host, replace[i], env.teardown(replace[i]));
      assert replace[i..][0] == replace[i] && replace[i..][1..] == replace[i + 1..];
      LeftoversOne(docker.host, done, replace[i..], env, whole);
      RolloutProofs.FinalConcat(old(docker.host), done, step);
      Text.Associate(old(docker.trace), done, step);
      StopAndRemove(docker, replace[i], env.teardown(replace[i]));
      done := done + step;
    }
    assert replace[|replace|..] == [];
  }

  /** One turn whose replica was accepted: launch, then remove the first container still listed. */
  method SwapOne(docker: Docker, replace: seq<nat>, env: Env)
    modifies docker
    ensures docker.trace == old(docker.trace) + Swap(old(docker.host), replace, env)
    ensures docker.host == Final(old(docker.host), Swap(old(docker.host), replace, env))
  {
    if |replace| > 0 {
      StopAndRemove(docker, replace[0], env.teardown(replace[0]));
    }
  }

  /** How far the loop has come: what is done, and that the rest follows from here. */
  ghost predicate Midway(start: Host, here: Host, done: seq<Host>, job: Job, i: nat, replace: seq<nat>, env: Env,
                         whole: Run)
    requires i <= job.needNew
  {
    var rest := Roll(here, job, i, replace, env);
    here == Final(start, done) && whole == Run(done + rest.trace, rest.ok)
  }

  lemma Reassociate(done: seq<Host>, launch: seq<Host>, swap: seq<Host>, rest: seq<Host>)
    ensures done + (launch + swap + rest) == done + launch + swap + rest
  {
  }

  lemma MidwayTurn(start: Host, here: Host, done: seq<Host>, job: Job, i: nat, replace: seq<nat>, env: Env, whole: Run,
                   launch: seq<Host>, swap: seq<Host>)
    requires i < job.needNew && env.fates(i).Accepted? && Midway(start, here, done, job, i, replace, env, whole)
    requires launch == Launch(here, job, i, env.fates(i).alive, Judged(job), env)
    requires swap == Swap(Final(here, launch), replace, env)
    ensures Midway(start, Final(Final(here, launch), swap), done + launch + swap, job, i + 1, Rest(replace), env, whole)
  {
    RolloutProofs.FinalConcat(start, done, launch);
    RolloutProofs.FinalConcat(start, done + launch, swap);
    Reassociate(done, launch, swap, Roll(Final(Final(here, launch), swap), job, i + 1, Rest(replace), env).trace);
  }

  /** The i-th creation failed: the run ends where it stands. */
  lemma MidwayFails(start: Host, here: Host, done: seq<Host>, job: Job, i: nat, replace: seq<nat>, env: Env, whole: Run)
    requires i < job.needNew && !env.fates(i).Accepted? && Midway(start, here, done, job, i, replace, env, whole)
    ensures whole == Run(done + FailedLaunch(here, job, i, env), false)
    ensures Final(start, whole.trace) == Final(here, FailedLaunch(here, job, i, env))
  {
    RolloutProofs.FinalConcat(start, done, FailedLaunch(here, job, i, env));
  }

  lemma MidwayEnds(start: Host, here: Host, done: seq<Host>, job: Job, replace: seq<nat>, env: Env, whole: Run)
    requires Midway(start, here, done, job, job.needNew, replace, env, whole)
    ensures whole == Run(done + TearDownAll(here, replace, env), true)
    ensures Final(start, whole.trace) == Final(here, TearDownAll(here, replace, env))
  {
    RolloutProofs.FinalConcat(start, done, TearDownAll(here, replace, env));
  }

  /** One turn of the interleaved loop: create one, wait, remove one. */
  method Turn(docker: Docker, job: Job, i: nat, replace: seq<nat>, env: Env, ghost start: Host, ghost done: seq<Host>,
              ghost whole: Run)
      returns (ok: bool, ghost step: seq<Host>)
    requires i < job.needNew && Midway(start, docker.host, done, job, i, replace, env, whole)
    modifies docker
    ensures docker.trace == old(docker.trace) + step
    ensures ok ==> Midway(start, docker.host, done + step, job, i + 1, Rest(replace), env, whole)
    ensures !ok ==> whole == Run(done + step, false) && docker.host == Final(start, whole.trace)
  {
    ghost var here := docker.host;
    ok := CreateReplica(docker, job, i, env);
    if !ok {
      MidwayFails(start, here, done, job, i, replace, env, whole);
      step := FailedLaunch(here, job, i, env);
    } else {
      ghost var launch := Launch(here, job, i, env.fates(i).alive, Judged(job), env);
      ghost var swap := Swap(docker.host, replace, env);
      MidwayTurn(start, here, done, job, i, replace, env, whole, launch, swap);
      SwapOne(docker, replace, env);
      step := launch + swap;
      assert done + step == done + launch + swap;
    }
  }

  method RollOut(docker: Docker, job: Job, replace0: seq<nat>, env: Env) returns (ok: bool)
    modifies docker
    ensures var roll := Roll(old(docker.host), job, 0, replace0, env);
            && docker.trace == old(docker.trace) + roll.trace && docker.host == Final(old(docker.host), roll.trace)
            && ok == roll.ok
  {
    var replace := replace0;
    ghost var whole := Roll(docker.host, job, 0, replace, env);
    ghost var done: seq<Host> := [];
    for i := 0 to job.needNew
      invariant docker.trace == old(docker.trace) + done
      invariant Midway(old(docker.host), docker.host, done, job, i, replace, env, whole)
    {
      var turned;
      ghost var step;
      turned, step := Turn(docker, job, i, replace, env, old(docker.host), done, whole);
      Text.Associate(old(docker.trace), done, step);
      done := done + step;
      if !turned {
        return false;
      }
      replace := Rest(replace);
    }
    MidwayEnds(old(docker.host), docker.host, done, job, replace, env, whole);
    Text.Associate(old(docker.trace), done, TearDownAll(docker.host, replace, env));
    RemoveLeftovers(docker, replace, env);
    return true;
  }

  method PlanDeploy(docker: Docker, req: Request, env: Env) returns (plan: Plan, ok: bool)
    modifies docker
    ensures var p := Partitioned(old(docker.host), Of(old(docker.host.containers), req.name), req.svc,
                                 req.secretsChanged, env);
            && docker.trace == old(docker.trace) + p.trace && docker.host == Final(old(docker.host), p.trace)
            && ok == p.ok && (ok ==> plan == PlanFor(p, req.svc))
  {
    var existing := GetServiceContainers(docker, req.name);
    var keep, replace;
    keep, replace, ok := PartitionExisting(docker, existing, req.svc, req.secretsChanged, env);
    var replicas := DesiredReplicas(req.svc);
    if |keep| > replicas {
      replace := replace + keep[replicas..];
      keep := keep[..replicas];
    }
    plan := Plan(keep, replace);
  }

  /** deployService against the mutable host does exactly what the function DeployService describes. */
  method RunDeployService(docker: Docker, req: Request, env: Env) returns (ok: bool)
    modifies docker
    ensures var run := DeployService(old(docker.host), req, env);
            && docker.trace == old(docker.trace) + run.trace && docker.host == Final(old(docker.host), run.trace)
            && ok == run.ok
  {
    var fixedPort := Ports.HasStaticPublishedPort(req.svc.ports);
    if DesiredReplicas(req.svc) > 1 && fixedPort {
      return false;
    }
    if !env.preflight || !env.listed {
      return false;
    }
    ghost var p := Partitioned(docker.host, Of(docker.host.containers, req.name), req.svc, req.secretsChanged, env);
    var plan, looked := PlanDeploy(docker, req, env);
    if !looked {
      return false;
    }
    var job := JobFor(req, plan);
    ghost var roll := Roll(docker.host, job, 0, plan.replace, env);
    RolloutProofs.FinalConcat(old(docker.host), p.trace, roll.trace);
    Text.Associate(old(docker.trace), p.trace, roll.trace);
    if job.needNew == 0 && |plan.replace| == 0 {
      assert roll == Run([], true) && p.trace + [] == p.trace;
      return true;
    }
    ok := RollOut(docker, job, plan.replace, env);
  }
}

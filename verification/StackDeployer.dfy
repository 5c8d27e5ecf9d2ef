/** executeDeploy and its rollback as loops over a mutable host. */
module StackDeployer {
  import opened Containers
  import opened Rollout
  import opened StackRollout
  import opened Deployer
  import DependencyOrder
  import RolloutProofs
  import Text

  // ---------------------------------------------------------------------------------------------
  // rollbackService
  // ---------------------------------------------------------------------------------------------

  /** A loop that has done `done` from `start` and still has the run `rest` before it. */
  ghost predicate Pending(start: Host, here: Host, done: seq<Host>, rest: Run, whole: Run) {
    here == Final(start, done) && whole == Run(done + rest.trace, rest.ok)
  }

  lemma PendingStep(start: Host, here: Host, done: seq<Host>, step: seq<Host>, rest: Run, whole: Run)
    requires Pending(start, here, done, Run(step + rest.trace, rest.ok), whole)
    ensures Pending(start, Final(here, step), done + step, rest, whole)
  {
    RolloutProofs.FinalConcat(start, done, step);
    Text.Associate(done, step, rest.trace);
  }

  /** Removing one container of a rollback leads on to the next, or ends the run. */
  lemma RemoveOneMore(start: Host, here: Host, done: seq<Host>, ids: seq<nat>, r: RollbackEnv, whole: Run)
    requires ids != [] && Pending(start, here, done, RemoveCurrent(here, ids, r), whole)
    ensures var step := TearDown(here, ids[0], Teardown(r.stopOk(ids[0]), r.removeOk(ids[0])));
            var next := Final(here, step);
            && next == Final(start, done + step)
            && (r.removeOk(ids[0]) ==> Pending(start, next, done + step, RemoveCurrent(next, ids[1..], r), whole))
            && (!r.removeOk(ids[0]) ==> whole == Run(done + step, false))
  {
    var step := TearDown(here, ids[0], Teardown(r.stopOk(ids[0]), r.removeOk(ids[0])));
    RolloutProofs.FinalConcat(start, done, step);
    if r.removeOk(ids[0]) {
      PendingStep(start, here, done, step, RemoveCurrent(Final(here, step), ids[1..], r), whole);
    }
  }

  method RemoveAll(docker: Docker, ids: seq<nat>, r: RollbackEnv) returns (ok: bool)
    modifies docker
    ensures var run := RemoveCurrent(old(docker.host), ids, r);
            && docker.trace == old(docker.trace) + run.trace && docker.host == Final(old(docker.host), run.trace)
            && ok == run.ok
  {
    ghost var whole := RemoveCurrent(docker.host, ids, r);
    ghost var done: seq<Host> := [];
    assert ids[0..] == ids && done + whole.trace == whole.trace;
    for i := 0 to |ids|
      invariant docker.trace == old(docker.trace) + done
      invariant Pending(old(docker.host), docker.host, done, RemoveCurrent(docker.host, ids[i..], r), whole)
    {
      var outcome := Teardown(r.stopOk(ids[i]), r.removeOk(ids[i]));
      ghost var step := TearDown(docker.host, ids[i], outcome);
      assert ids[i..][0] == ids[i] && ids[i..][1..] == ids[i + 1..];
      RemoveOneMore(old(docker.host), docker.host, done, ids[i..], r, whole);
      Text.Associate(old(docker.trace), done, step);
      StopAndRemove(docker, ids[i], outcome);
      if !outcome.removeOk {
        return false;
      }
      done := done + step;
    }
    assert ids[|ids|..] == [];
    return true;
  }

  /** Recreating one container leads on to the next. */
  lemma RecreateOneMore(start: Host, here: Host, done: seq<Host>, service: string, snapshot: Snapshot, i: nat,
                        r: RollbackEnv, whole: Run)
    requires i < |snapshot| && r.createOk(i)
    requires Pending(start, here, done, Recreate(here, service, snapshot, i, r), whole)
    ensures var created := Create(here, RollbackName(service, i, r), snapshot[i]);
            var started := Report(created, here.nextId, true, r.health(i));
            && (!r.startOk(i) ==> whole == Run(done + [created], false) && created == Final(start, done + [created]))
            && (r.startOk(i) ==>
                 Pending(start, started, done + [created, started], Recreate(started, service, snapshot, i + 1, r),
                         whole))
  {
    var created := Create(here, RollbackName(service, i, r), snapshot[i]);
    var started := Report(created, here.nextId, true, r.health(i));
    if r.startOk(i) {
      PendingStep(start, here, done, [created, started], Recreate(started, service, snapshot, i + 1, r), whole);
    }
  }

  method RecreateAll(docker: Docker, service: string, snapshot: Snapshot, r: RollbackEnv) returns (ok: bool)
    modifies docker
    ensures var run := Recreate(old(docker.host), service, snapshot, 0, r);
            && docker.trace == old(docker.trace) + run.trace && docker.host == Final(old(docker.host), run.trace)
            && ok == run.ok
  {
    ghost var whole := Recreate(docker.host, service, snapshot, 0, r);
    ghost var done: seq<Host> := [];
    assert done + whole.trace == whole.trace;
    for i := 0 to |snapshot|
      invariant docker.trace == old(docker.trace) + done
      invariant Pending(old(docker.host), docker.host, done, Recreate(docker.host, service, snapshot, i, r), whole)
    {
      if !r.createOk(i) {
        return false;
      }
      RecreateOneMore(old(docker.host), docker.host, done, service, snapshot, i, r, whole);
      var id := docker.ContainerCreate(RollbackName(service, i, r), snapshot[i]);
      ghost var created := docker.host;
      if !r.startOk(i) {
        Text.Associate(old(docker.trace), done, [created]);
        return false;
      }
      docker.StateChanges(id, true, r.health(i));
      ghost var step := [created, docker.host];
      Text.Associate(old(docker.trace), done, step);
      done := done + step;
    }
    return true;
  }

  method RunRollbackService(docker: Docker, service: string, snapshot: Snapshot, r: RollbackEnv) returns (ok: bool)
    modifies docker
    ensures var run := RollbackService(old(docker.host), service, snapshot, r);
            && docker.trace == old(docker.trace) + run.trace && docker.host == Final(old(docker.host), run.trace)
            && ok == run.ok
  {
    if |snapshot| == 0 {
      return true;
    }
    if !r.listed {
      return false;
    }
    var current := GetServiceContainers(docker, service);
    ghost var removed := RemoveCurrent(docker.host, Ids(current), r);
    ok := RemoveAll(docker, Ids(current), r);
    if !ok {
      return;
    }
    ghost var created := Recreate(docker.host, service, snapshot, 0, r);
    RolloutProofs.FinalConcat(old(docker.host), removed.trace, created.trace);
    Text.Associate(old(docker.trace), removed.trace, created.trace);
    ok := RecreateAll(docker, service, snapshot, r);
  }

  // ---------------------------------------------------------------------------------------------
  // rollbackServices
  // ---------------------------------------------------------------------------------------------

  /** The captured states the deploy keeps: one entry per service of the order. */
  ghost predicate CapturedFrom(states: map<string, Captured>, names: seq<string>, before: Host, env: StackEnv) {
    forall s :: s in names ==> s in states && states[s] == Capture(before, s, env)
  }

  method RollbackOne(docker: Docker, service: string, captured: Captured, ghost before: Host, env: StackEnv)
    requires captured == Capture(before, service, env)
    modifies docker
    ensures var step := RollbackStep(old(docker.host), service, before, env);
            docker.trace == old(docker.trace) + step && docker.host == Final(old(docker.host), step)
  {
    if captured.Known? {
      var _ := RunRollbackService(docker, service, captured.snapshot, env.rollback(service));
    }
  }

  /** Rolling back a list ends with its first service, whatever came before. */
  lemma RollbackOneMore(start: Host, here: Host, done: seq<Host>, deployed: seq<string>, i: nat, before: Host,
                        env: StackEnv, whole: Run)
    requires i < |deployed|
    requires Pending(start, here, done, Run(RollbackServices(here, deployed[..i + 1], before, env), true), whole)
    ensures var step := RollbackStep(here, deployed[i], before, env);
            var next := Final(here, step);
            Pending(start, next, done + step, Run(RollbackServices(next, deployed[..i], before, env), true), whole)
  {
    var names := deployed[..i + 1];
    assert names[|names| - 1] == deployed[i] && names[..|names| - 1] == deployed[..i];
    var step := RollbackStep(here, deployed[i], before, env);
    PendingStep(start, here, done, step, Run(RollbackServices(Final(here, step), deployed[..i], before, env), true),
                whole);
  }

  method RunRollbackServices(docker: Docker, deployed: seq<string>, states: map<string, Captured>,
                             ghost before: Host, env: StackEnv)
    requires CapturedFrom(states, deployed, before, env)
    modifies docker
    ensures var trace := RollbackServices(old(docker.host), deployed, before, env);
            docker.trace == old(docker.trace) + trace && docker.host == Final(old(docker.host), trace)
  {
    ghost var whole := Run(RollbackServices(docker.host, deployed, before, env), true);
    ghost var done: seq<Host> := [];
    var i := |deployed|;
    assert deployed[..i] == deployed && done + whole.trace == whole.trace;
    while i > 0
      invariant 0 <= i <= |deployed|
      invariant docker.trace == old(docker.trace) + done
      invariant Pending(old(docker.host), docker.host, done,
                        Run(RollbackServices(docker.host, deployed[..i], before, env), true), whole)
    {
      i := i - 1;
      var service := deployed[i];
      ghost var step := RollbackStep(docker.host, service, before, env);
      RollbackOneMore(old(docker.host), docker.host, done, deployed, i, before, env, whole);
      RollbackOne(docker, service, states[service], before, env);
      Text.Associate(old(docker.trace), done, step);
      done := done + step;
    }
    assert deployed[..0] == [];
  }

  // ---------------------------------------------------------------------------------------------
  // executeDeploy
  // ---------------------------------------------------------------------------------------------

  method CaptureAll(docker: Docker, order: seq<string>, env: StackEnv) returns (states: map<string, Captured>)
    ensures CapturedFrom(states, order, docker.host, env)
  {
    states := map[];
    for i := 0 to |order|
      invariant forall k :: 0 <= k < i ==> order[k] in states && states[order[k]] == Capture(docker.host, order[k], env)
    {
      if env.captured(order[i]) {
        var containers := GetServiceContainers(docker, order[i]);
        states := states[order[i] := Known(Configs(containers))];
      } else {
        states := states[order[i] := Unknown];
      }
    }
  }

  /** One turn of the deploy loop; `stop` says the loop ends here. */
  method DeployOne(docker: Docker, service: string, deployed: seq<string>, states: map<string, Captured>,
                   ghost before: Host, input: StackInput, env: StackEnv)
      returns (stop: bool, outcome: Outcome, ghost step: seq<Host>)
    requires service in input.services && CapturedFrom(states, deployed, before, env)
    modifies docker
    ensures docker.trace == old(docker.trace) + step && docker.host == Final(old(docker.host), step)
    ensures var run := DeployService(old(docker.host), RequestFor(service, input), env.deploy(service));
            var after := Final(old(docker.host), run.trace);
            && stop == (!env.bindOk(service) || !run.ok)
            && (!env.bindOk(service) ==> outcome == BindError(service) && step == [])
            && (env.bindOk(service) && run.ok ==> step == run.trace)
            && (env.bindOk(service) && !run.ok ==>
                 outcome == RolledBack(service) && step == run.trace + RollbackServices(after, deployed, before, env))
  {
    outcome := Done;
    if !env.bindOk(service) {
      return true, BindError(service), [];
    }
    ghost var run := DeployService(docker.host, RequestFor(service, input), env.deploy(service));
    var ok := RunDeployService(docker, RequestFor(service, input), env.deploy(service));
    if ok {
      return false, Done, run.trace;
    }
    ghost var undo := RollbackServices(docker.host, deployed, before, env);
    RunRollbackServices(docker, deployed, states, before, env);
    RolloutProofs.FinalConcat(old(docker.host), run.trace, undo);
    Text.Associate(old(docker.trace), run.trace, undo);
    return true, RolledBack(service), run.trace + undo;
  }

  /** The deploy loop so far: `done` from the start, `rest` still to come. */
  ghost predicate Deploying(start: Host, here: Host, done: seq<Host>, rest: StackRun, whole: StackRun) {
    here == Final(start, done) && whole == StackRun(done + rest.trace, rest.outcome)
  }

  lemma DeployingStep(start: Host, here: Host, done: seq<Host>, step: seq<Host>, rest: StackRun, whole: StackRun)
    requires Deploying(start, here, done, StackRun(step + rest.trace, rest.outcome), whole)
    ensures Deploying(start, Final(here, step), done + step, rest, whole)
  {
    RolloutProofs.FinalConcat(start, done, step);
    Text.Associate(done, step, rest.trace);
  }

  method DeployLoop(docker: Docker, order: seq<string>, states: map<string, Captured>, input: StackInput, env: StackEnv)
      returns (outcome: Outcome)
    requires CapturedFrom(states, order, docker.host, env)
    modifies docker
    ensures var run := DeployFrom(old(docker.host), order, [], old(docker.host), input, env);
            && docker.trace == old(docker.trace) + run.trace && docker.host == FinalHost(old(docker.host), run)
            && outcome == run.outcome
  {
    ghost var before := docker.host;
    ghost var whole := DeployFrom(docker.host, order, [], before, input, env);
    ghost var done: seq<Host> := [];
    var deployed: seq<string> := [];
    assert order[0..] == order && done + whole.trace == whole.trace;
    for i := 0 to |order|
      invariant docker.trace == old(docker.trace) + done
      invariant forall s :: s in deployed ==> s in order
      invariant Deploying(before, docker.host, done, DeployFrom(docker.host, order[i..], deployed, before, input, env),
                          whole)
    {
      var service := order[i];
      assert order[i..][0] == service && order[i..][1..] == order[i + 1..];
      if service in input.services {
        ghost var here := docker.host;
        var stop, result;
        ghost var step;
        stop, result, step := DeployOne(docker, service, deployed, states, before, input, env);
        Text.Associate(old(docker.trace), done, step);
        RolloutProofs.FinalConcat(before, done, step);
        if stop {
          assert done + [] == done;
          return result;
        }
        DeployingStep(before, here, done, step,
                      DeployFrom(docker.host, order[i + 1..], deployed + [service], before, input, env), whole);
        done := done + step;
        deployed := deployed + [service];
      }
    }
    assert order[|order|..] == [] && done + [] == done;
    return Done;
  }

  datatype DeployResult = NoServices | Circular | Ran(order: seq<string>, outcome: Outcome)

  /**
   executeDeploy after the compose file is read: order, capture, networks and volumes, deploy. When it runs, it
   runs the deploy described by ExecuteDeploy over an order that lists every service the targets need, once,
   dependencies first.
   */
  method RunExecuteDeploy(docker: Docker, targets: seq<string>, g: DependencyOrder.Graph, input: StackInput,
                          env: StackEnv)
      returns (result: DeployResult)
    modifies docker
    ensures result.NoServices? <==> targets == []
    ensures result.Circular? <==> targets != [] && DependencyOrder.HasReachableCycle(g, targets)
    ensures !result.Ran? ==> docker.host == old(docker.host) && docker.trace == old(docker.trace)
    ensures result.Ran? && !env.prepared ==>
              result.outcome == NotPrepared && docker.host == old(docker.host) && docker.trace == old(docker.trace)
    ensures result.Ran? ==>
              var run := ExecuteDeploy(old(docker.host), result.order, input, env);
              && Text.Distinct(result.order)
              && (forall n :: n in result.order <==> DependencyOrder.Reachable(g, targets, n))
              && DependencyOrder.DependenciesFirst(g, result.order)
              && docker.trace == old(docker.trace) + run.trace && docker.host == FinalHost(old(docker.host), run)
              && result.outcome == run.outcome
  {
    if |targets| == 0 {
      return NoServices;
    }
    var sorted := DependencyOrder.TopologicalSort(targets, g);
    if sorted.Circular? {
      return Circular;
    }
    var states := CaptureAll(docker, sorted.names, env);
    if !env.prepared {
      return Ran(sorted.names, NotPrepared);
    }
    var outcome := DeployLoop(docker, sorted.names, states, input, env);
    return Ran(sorted.names, outcome);
  }
}

/** The control loop's question for a whole stack: is the drift check silent after a successful deploy? */
module StackAgreement {
  import opened Containers
  import opened Rollout
  import opened RolloutProofs
  import opened RolloutTheorems
  import opened StackRollout
  import opened StackStates
  import opened Provenance
  import opened Drift
  import opened DriftAgreement
  import DependencyOrder
  import Text

  // ---------------------------------------------------------------------------------------------
  // What a successful deploy of a stack leaves
  // ---------------------------------------------------------------------------------------------

  /** At the end every defined service has been deployed, and is as its own deploy left it. */
  lemma {:induction false} DoneDeployedAll(h: Host, order: seq<string>, deployed: seq<string>, before: Host,
                                           input: StackInput, env: StackEnv)
    requires h.Valid() && Separate(order) && DeployFrom(h, order, deployed, before, input, env).outcome.Done?
    ensures var end := FinalHost(h, DeployFrom(h, order, deployed, before, input, env));
            EarlierDeployed(h, end, order, |order|, input, env) && SameBut(h, end, order)
    decreases |order|
  {
    if order != [] {
      var s := order[0];
      var after, done := h, deployed;
      HeadClear(order);
      if s in input.services {
        after, done := TurnOf(h, order, 0, input, env).End(), deployed + [s];
        DeployTouchesOnlyItsService(h, RequestFor(s, input), env.deploy(s));
        NotClashingAsBefore(h, after, s);
        FinalConcat(h, TurnOf(h, order, 0, input, env).run.trace,
                    DeployFrom(after, order[1..], done, before, input, env).trace);
      }
      DoneDeployedAll(after, order[1..], done, before, input, env);
      assert order[..|order|] == order && order[1..][..|order| - 1] == order[1..];
      StartAfterHead(h, order, after, FinalHost(after, DeployFrom(after, order[1..], done, before, input, env)),
                     |order|, input, env);
    }
  }

  /** A container one of the deploys of the order created. */
  ghost predicate CreatedFor(c: Container, order: seq<string>, input: StackInput) {
    exists s :: s in order && s in input.services && MatchesServiceName(c.name, s)
                && c.config == ConfigFor(s, input.services[s], input.stack, input.secrets)
  }

  ghost predicate OldOrCreated(h: Host, w: Host, order: seq<string>, input: StackInput) {
    forall c :: c in w.containers ==> HadAlready(h, c.name, c.config) || CreatedFor(c, order, input)
  }

  lemma OldOrCreatedAfterHead(h: Host, after: Host, end: Host, order: seq<string>, input: StackInput)
    requires order != [] && order[0] in input.services && OldOrCreated(after, end, order[1..], input)
    requires From(h, after, order[0],
                  {ConfigFor(order[0], input.services[order[0]], input.stack, input.secrets)})
    ensures OldOrCreated(h, end, order, input)
  {
    forall c | c in end.containers ensures HadAlready(h, c.name, c.config) || CreatedFor(c, order, input) {
      if CreatedFor(c, order[1..], input) {
        var s :| s in order[1..] && s in input.services && MatchesServiceName(c.name, s)
                 && c.config == ConfigFor(s, input.services[s], input.stack, input.secrets);
        assert s in order;
      } else {
        var d :| d in after.containers && d.name == c.name && d.config == c.config;
        assert order[0] in order;
      }
    }
  }

  /** At the end every container was there before or was created for a service of the order. */
  lemma {:induction false} DoneOldOrCreated(h: Host, order: seq<string>, deployed: seq<string>, before: Host,
                                            input: StackInput, env: StackEnv)
    requires DeployFrom(h, order, deployed, before, input, env).outcome.Done?
    ensures OldOrCreated(h, FinalHost(h, DeployFrom(h, order, deployed, before, input, env)), order, input)
    decreases |order|
  {
    if order != [] && order[0] in input.services {
      var s := order[0];
      var run := DeployService(h, RequestFor(s, input), env.deploy(s));
      var after := Final(h, run.trace);
      var rest := DeployFrom(after, order[1..], deployed + [s], before, input, env);
      FromDeploy(h, RequestFor(s, input), env.deploy(s));
      DoneOldOrCreated(after, order[1..], deployed + [s], before, input, env);
      FinalConcat(h, run.trace, rest.trace);
      OldOrCreatedAfterHead(h, after, FinalHost(after, rest), order, input);
    } else if order != [] {
      var end := FinalHost(h, DeployFrom(h, order[1..], deployed, before, input, env));
      DoneOldOrCreated(h, order[1..], deployed, before, input, env);
      forall c | c in end.containers && CreatedFor(c, order[1..], input) ensures CreatedFor(c, order, input) {
        var s :| s in order[1..] && s in input.services && MatchesServiceName(c.name, s)
                 && c.config == ConfigFor(s, input.services[s], input.stack, input.secrets);
        assert s in order;
      }
    }
  }

  // ---------------------------------------------------------------------------------------------
  // Silence
  // ---------------------------------------------------------------------------------------------

  /**
   Nothing about the service, before the deploy or in its own outcome, gives the check something to say: removals work,
   accepted replicas live, whatever bears its label bears its name, and what can stay is labelled.
   */
  ghost predicate Ready(h: Host, s: string, input: StackInput, env: StackEnv)
    requires s in input.services
  {
    && s != "" && TeardownsSucceed(env.deploy(s)) && AllAlive(env.deploy(s))
    && LabelsFollowNames(h.containers, input.stack, s)
    && (input.secretsChanged || StayersLabelled(h, RequestFor(s, input)))
  }

  /** What the check then looks at: the end of the deploy, the deployed services, and no secrets written since. */
  ghost predicate Observes(o: Observation, end: Host, order: seq<string>, input: StackInput) {
    && o.stack == input.stack && o.containers == end.containers && !o.secretsDiffer
    && (forall s :: s in o.services <==> s in order && s in input.services)
    && (forall s :: s in o.services ==> o.services[s] == input.services[s])
  }

  lemma LabelsFollowNamesAtEnd(h: Host, end: Host, order: seq<string>, input: StackInput, s: string)
    requires OldOrCreated(h, end, order, input) && LabelsFollowNames(h.containers, input.stack, s)
    requires "" !in order
    ensures LabelsFollowNames(end.containers, input.stack, s)
  {
    forall c | c in end.containers && Labelled(c, input.stack, s) ensures MatchesServiceName(c.name, s) {
      if HadAlready(h, c.name, c.config) {
        var d :| d in h.containers && d.name == c.name && d.config == c.config;
        assert Labelled(d, input.stack, s);
      }
    }
  }

  lemma NoOrphansAtEnd(h: Host, end: Host, order: seq<string>, input: StackInput, services: set<string>)
    requires OldOrCreated(h, end, order, input) && ActualServices(h.containers, input.stack) <= services
    requires "" !in order && forall s :: s in order && s in input.services ==> s in services
    ensures ActualServices(end.containers, input.stack) <= services
  {
    forall c | c in end.containers && c.config.managed && c.config.stack == input.stack && ServiceOf(c) != ""
      ensures ServiceOf(c) in services
    {
      if HadAlready(h, c.name, c.config) {
        var d :| d in h.containers && d.name == c.name && d.config == c.config;
        assert ServiceOf(d) == ServiceOf(c) && ServiceOf(d) in ActualServices(h.containers, input.stack);
      }
    }
  }

  /** A deployed service whose labels are in order gives the check nothing to report. */
  lemma DeployedIsSilent(h: Host, end: Host, order: seq<string>, j: nat, input: StackInput, env: StackEnv,
                         inspected: nat -> bool)
    requires h.Valid() && Separate(order) && j < |order| && DeployedIn(h, end, order, j, input, env)
    requires order[j] in input.services && Ready(h, order[j], input, env)
    requires LabelsFollowNames(end.containers, input.stack, order[j])
    ensures Silent(end, RequestFor(order[j], input), inspected)
  {
    var s, req := order[j], RequestFor(order[j], input);
    var t := TurnOf(h, order, j, input, env);
    TurnStarts(h, order, j, input, env);
    ClearOfOthers(order, j);
    assert Of(t.start.containers, s) == Of(h.containers, s);
    TurnIsSilent(t, end, req, env.deploy(s), inspected);
  }

  lemma TurnIsSilent(t: Turn, end: Host, req: Request, env: Env, inspected: nat -> bool)
    requires t.Succeeded() && t.start.Valid() && t.run == DeployService(t.start, req, env)
    requires TeardownsSucceed(env) && AllAlive(env) && req.name != ""
    requires req.secretsChanged || StayersLabelled(t.start, req)
    requires Of(end.containers, req.name) == Of(t.End().containers, req.name)
    requires LabelsFollowNames(end.containers, req.stack, req.name)
    ensures Silent(end, req, inspected)
  {
    LabelledEnough(t.start, req, env);
    DeployConverges(t.start, req, env);
    GroupedAgainstNamed(end.containers, req.stack, req.name);
    SilentExactly(req.name, req.svc, Grouped(end.containers, req.stack, req.name), inspected);
  }

  /** After a successful deploy of a stack in which every service is ready, and no others run, nothing is reported. */
  lemma StackSilentAfterDeploy(h: Host, order: seq<string>, input: StackInput, env: StackEnv, o: Observation,
                               item: Item)
    requires h.Valid() && Separate(order) && "" !in order && ExecuteDeploy(h, order, input, env).outcome.Done?
    requires Observes(o, FinalHost(h, ExecuteDeploy(h, order, input, env)), order, input)
    requires forall s :: s in o.services ==> Ready(h, s, input, env)
    requires ActualServices(h.containers, input.stack) <= o.services.Keys
    ensures !Reported(o, item)
  {
    var end := FinalHost(h, ExecuteDeploy(h, order, input, env));
    DoneDeployedAll(h, order, [], h, input, env);
    DoneOldOrCreated(h, order, [], h, input, env);
    NoOrphansAtEnd(h, end, order, input, o.services.Keys);
    if item.service in o.services {
      var j :| 0 <= j < |order| && order[j] == item.service;
      LabelsFollowNamesAtEnd(h, end, order, input, item.service);
      assert DeployedIn(h, end, order, j, input, env);
      DeployedIsSilent(h, end, order, j, input, env, o.inspected);
    }
  }

  // ---------------------------------------------------------------------------------------------
  // The filter
  // ---------------------------------------------------------------------------------------------

  /** Every defined dependency of a member is a member, too. */
  ghost predicate ClosedWithin(members: set<string>, defined: set<string>, g: DependencyOrder.Graph) {
    forall n, d :: n in members && d in DependencyOrder.Deps(g, n) && d in defined ==> d in members
  }

  /** From a closed set nothing defined outside it is reached: a name that is not defined leads nowhere. */
  lemma ReachedStaysInside(members: set<string>, g: DependencyOrder.Graph, targets: seq<string>, s: string)
    requires ClosedWithin(members, g.Keys, g) && Text.Elements(targets) == members
    requires DependencyOrder.Reachable(g, targets, s) && s in g
    ensures s in members
  {
    var known := members + set n, d | n in g && d in g[n] && d !in g :: d;
    forall n {:trigger DependencyOrder.Deps(g, n)} | n in known ensures DependencyOrder.Deps(g, n) <= known {}
    var t :| t in targets && DependencyOrder.ReachableFrom(g, t, s);
    var p :| DependencyOrder.PathFromTo(g, p, t, s);
    assert t in Text.Elements(targets);
    DependencyOrder.ClosedUnderPaths(g, known, p);
  }

  lemma TargetReached(g: DependencyOrder.Graph, targets: seq<string>, s: string)
    requires s in Text.Elements(targets)
    ensures DependencyOrder.Reachable(g, targets, s)
  {
    assert DependencyOrder.PathFromTo(g, [s], s, s);
  }

  /** Every dependency of a checked service that the compose file defines is checked, too. */
  ghost predicate ClosedFilter(filter: string, services: map<string, Service>, g: DependencyOrder.Graph) {
    ClosedWithin(CheckedServices(filter, services), services.Keys, g)
  }

  /** With a closed filter the deployer deploys exactly the services the check looks at. */
  lemma ClosedFilterDeploysWhatIsChecked(filter: string, services: map<string, Service>, g: DependencyOrder.Graph,
                                         targets: seq<string>, order: seq<string>)
    requires g.Keys == services.Keys && ClosedFilter(filter, services, g)
    requires filter == "" || Text.TrimSpace(filter) != "" || services == map[]
    requires Text.Elements(targets) == DeployTargets(filter, services)
    requires forall n :: n in order <==> DependencyOrder.Reachable(g, targets, n)
    ensures forall s :: s in order && s in services <==> s in CheckedServices(filter, services)
  {
    FiltersAgreeExactly(filter, services);
    var checked := CheckedServices(filter, services);
    assert checked <= services.Keys;
    forall s ensures s in order && s in services <==> s in checked {
      if s in checked {
        TargetReached(g, targets, s);
      } else if s in order && s in services {
        ReachedStaysInside(checked, g, targets, s);
      }
    }
  }

  /**
   Deploy and check together: with a filter closed under dependencies, the order the deployer computes for it, every
   checked service ready, no other service of the stack running, and no secret written since, the check that follows
   a successful deploy reports nothing at all.
   */
  lemma CheckSilentAfterDeploy(h: Host, order: seq<string>, input: StackInput, env: StackEnv, o: Observation,
                               item: Item, filter: string, g: DependencyOrder.Graph, targets: seq<string>)
    requires g.Keys == input.services.Keys && ClosedFilter(filter, input.services, g)
    requires filter == "" || Text.TrimSpace(filter) != "" || input.services == map[]
    requires Text.Elements(targets) == DeployTargets(filter, input.services)
    requires forall n :: n in order <==> DependencyOrder.Reachable(g, targets, n)
    requires h.Valid() && Separate(order) && "" !in order && ExecuteDeploy(h, order, input, env).outcome.Done?
    requires o.stack == input.stack && !o.secretsDiffer
    requires o.containers == FinalHost(h, ExecuteDeploy(h, order, input, env)).containers
    requires o.services.Keys == CheckedServices(filter, input.services)
    requires forall s :: s in o.services ==> o.services[s] == input.services[s] && Ready(h, s, input, env)
    requires ActualServices(h.containers, input.stack) <= o.services.Keys
    ensures !Reported(o, item)
  {
    ClosedFilterDeploysWhatIsChecked(filter, input.services, g, targets, order);
    StackSilentAfterDeploy(h, order, input, env, o, item);
  }
}

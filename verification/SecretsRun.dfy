/**
 Secrets and containers in one run: writes at any time, deploys of the whole stack with every outcome, containers
 that change or vanish by themselves. When does "no secrets drift reported" mean that the containers carry the
 current secrets? Deploys and stack updates on one stack do not overlap.
 */
module SecretsRun {
  import opened Containers
  import opened Rollout
  import opened RolloutProofs
  import opened RolloutTheorems
  import opened SecretMerge
  import opened SecretHash
  import opened SecretsDrift
  import opened StackRollout
  import opened Provenance
  import Text

  // ---------------------------------------------------------------------------------------------
  // Where the configurations of a service's containers come from
  // ---------------------------------------------------------------------------------------------

  /** What a container of the service may have been created with: what was there before, or this deploy's input. */
  function Allowed(before: Host, s: string, input: StackInput): set<Config> {
    ConfigsIn(before, s)
    + if s in input.services then {ConfigFor(s, input.services[s], input.stack, input.secrets)} else {}
  }

  ghost predicate AllAllowed(h: Host, names: seq<string>, before: Host, input: StackInput) {
    forall s :: s in names ==> ConfigsIn(h, s) <= Allowed(before, s, input)
  }

  /** A step that only touches s, and leaves s with allowed configurations, keeps all allowed. */
  lemma StepAllowed(h: Host, w: Host, s: string, names: seq<string>, before: Host, input: StackInput)
    requires Separate(names) && s in names && Apart(h, w, s) && AllAllowed(h, names, before, input)
    requires ConfigsIn(w, s) <= Allowed(before, s, input)
    ensures AllAllowed(w, names, before, input)
  {
    forall t | t in names ensures ConfigsIn(w, t) <= Allowed(before, t, input) {
      if t != s {
        SeparateNames(names, s, t);
        OthersSeeNothing(h, w, s, t);
      }
    }
  }

  lemma SeparateNames(names: seq<string>, s: string, t: string)
    requires Separate(names) && s in names && t in names && s != t
    ensures !Clash(s, t)
  {
    var i :| 0 <= i < |names| && names[i] == s;
    var j :| 0 <= j < |names| && names[j] == t;
    ClearSymmetric(s, t);
  }

  lemma {:induction false} RollbackAllowed(h: Host, deployed: seq<string>, names: seq<string>, before: Host,
                                           input: StackInput, env: StackEnv)
    requires h.Valid() && Separate(names) && (forall s :: s in deployed ==> s in names)
    requires AllAllowed(h, names, before, input)
    ensures var end := Final(h, RollbackServices(h, deployed, before, env));
            end.Valid() && AllAllowed(end, names, before, input)
    decreases |deployed|
  {
    if deployed != [] {
      var s, init := deployed[|deployed| - 1], deployed[..|deployed| - 1];
      var step := RollbackStep(h, s, before, env);
      RollbackStepRestores(h, s, before, env);
      FromRollback(h, s, before, env);
      FromConfigs(h, Final(h, step), s, ConfigsIn(before, s));
      StepAllowed(h, Final(h, step), s, names, before, input);
      RollbackAllowed(Final(h, step), init, names, before, input, env);
      FinalConcat(h, step, RollbackServices(Final(h, step), init, before, env));
    }
  }

  lemma {:induction false} DeployFromAllowed(h: Host, order: seq<string>, deployed: seq<string>, names: seq<string>,
                                             before: Host, input: StackInput, env: StackEnv)
    requires h.Valid() && Separate(names)
    requires (forall s :: s in order ==> s in names) && (forall s :: s in deployed ==> s in names)
    requires AllAllowed(h, names, before, input)
    ensures var end := FinalHost(h, DeployFrom(h, order, deployed, before, input, env));
            end.Valid() && AllAllowed(end, names, before, input)
    decreases |order|
  {
    if order != [] {
      var s := order[0];
      if s !in input.services {
        DeployFromAllowed(h, order[1..], deployed, names, before, input, env);
      } else if env.bindOk(s) {
        var req := RequestFor(s, input);
        var run := DeployService(h, req, env.deploy(s));
        var after := Final(h, run.trace);
        DeployTouchesOnlyItsService(h, req, env.deploy(s));
        FromDeploy(h, req, env.deploy(s));
        FromConfigs(h, after, s, {ConfigFor(s, req.svc, req.stack, req.secrets)});
        StepAllowed(h, after, s, names, before, input);
        if run.ok {
          DeployFromAllowed(after, order[1..], deployed + [s], names, before, input, env);
          FinalConcat(h, run.trace, DeployFrom(after, order[1..], deployed + [s], before, input, env).trace);
        } else {
          RollbackAllowed(after, deployed, names, before, input, env);
          FinalConcat(h, run.trace, RollbackServices(after, deployed, before, env));
        }
      }
    }
  }

  /** However a deploy of the stack ends, every container was configured as one before it, or by this deploy. */
  lemma ExecuteDeployAllowed(h: Host, order: seq<string>, names: seq<string>, input: StackInput, env: StackEnv)
    requires h.Valid() && Separate(names) && forall s :: s in order ==> s in names
    ensures var end := FinalHost(h, ExecuteDeploy(h, order, input, env));
            end.Valid() && AllAllowed(end, names, h, input)
  {
    DeployFromAllowed(h, order, [], names, h, input, env);
  }

  // ---------------------------------------------------------------------------------------------
  // The system
  // ---------------------------------------------------------------------------------------------

  datatype Deploy = Deploy(order: seq<string>, stack: string, services: map<string, Service>, env: StackEnv)

  datatype Event =
    | Secrets(step: Step)                                  // a write, the start of a deploy, or another update
    | Finish(deploy: Deploy)                               // executeDeploy and what runDeployment does after it
    | Changes(id: nat, running: bool, health: Health)      // a container's state changes by itself
    | Vanishes(id: nat)                                    // somebody removes a container

  /**
   `current` lists services all of whose containers are known to come from the secrets last deployed. `made` lists the
   deploys that ran since the last successful one begun under drift, that one included; while there was none yet, the
   system is `untouched` and containers may be left from its `origin`.
   */
  datatype System = System(state: State, host: Host, current: set<string>, origin: Host, made: seq<Deploy>,
                           untouched: bool)

  function InputOf(state: State, d: Deploy, digest: Digest): StackInput
    requires state.run.Running?
  {
    StackInput(d.stack, d.services, state.run.snapshot, Drifted(state, digest))
  }

  /** secretsChanged of the deploy in flight. */
  predicate Drifted(state: State, digest: Digest)
    requires state.run.Running?
  {
    Hash(state.run.snapshot, digest) != state.secretsHash
  }

  function Executed(x: System, d: Deploy, digest: Digest): StackRun
    requires x.state.run.Running?
  {
    ExecuteDeploy(x.host, d.order, InputOf(x.state, d, digest), d.env)
  }

  /** The rollback of an earlier service worked and had something to restore. */
  ghost predicate RolledBackWell(h: Host, s: string, env: StackEnv) {
    env.captured(s) && RollbackWorks(env.rollback(s)) && Of(h.containers, s) != []
  }

  /** The services a deploy begun under drift leaves current, by how it ended. */
  ghost function CurrentAfter(x: System, d: Deploy, outcome: Outcome): set<string> {
    match outcome
    case Done => set s | s in d.order && s in d.services && TeardownsSucceed(d.env.deploy(s))
    case NotPrepared => x.current
    case BindError(f) => set s | s in x.current && !(s in Upto(d.order, f) && s in d.services)
    case RolledBack(f) =>
      set s | s in x.current && s != f
              && (s in Upto(d.order, f) && s in d.services ==> RolledBackWell(x.host, s, d.env))
  }

  ghost function After(x: System, e: Event, digest: Digest): System {
    match e
    case Secrets(step) => x.(state := Next(x.state, step, digest))
    case Changes(id, running, health) => x.(host := Report(x.host, id, running, health))
    case Vanishes(id) => x.(host := Remove(x.host, id))
    case Finish(d) =>
      if x.state.run.Idle? then x
      else
        var run, drifted := Executed(x, d, digest), Drifted(x.state, digest);
        var renewed := drifted && run.outcome.Done?;
        System(Next(x.state, EndDeploy(run.outcome.Done?), digest), FinalHost(x.host, run),
               if drifted then CurrentAfter(x, d, run.outcome) else x.current, x.origin,
               if renewed then [d] else x.made + [d], x.untouched && !renewed)
  }

  /** `names` are all the services the stack ever has; none can claim another's containers. */
  ghost predicate Legal(e: Event, names: seq<string>) {
    match e
    case Secrets(step) => !step.EndDeploy? && (step.Upsert? ==> '=' !in step.name)
    case Finish(d) => Separate(d.order) && forall s :: s in d.order ==> s in names
    case Changes(_, _, _) => true
    case Vanishes(_) => true
  }

  /** A stack that was never deployed, on a host with any containers. */
  ghost function Begun(h: Host, names: seq<string>): System {
    System(Initial(), h, Text.Elements(names), h, [], true)
  }

  ghost function RunFrom(x: System, events: seq<Event>, digest: Digest): System {
    if events == [] then x else After(RunFrom(x, events[..|events| - 1], digest), events[|events| - 1], digest)
  }

  ghost predicate AllLegal(events: seq<Event>, names: seq<string>) {
    forall e :: e in events ==> Legal(e, names)
  }

  // ---------------------------------------------------------------------------------------------
  // Carrying secrets
  // ---------------------------------------------------------------------------------------------

  /** In this environment every one of the secrets has its value. */
  ghost predicate Carries(env: seq<string>, secrets: map<string, string>) {
    forall n :: n in secrets ==> LastEntry(env, n) == Text.Some(Assignment(n, secrets[n]))
  }

  ghost predicate AllCarry(h: Host, s: string, secrets: map<string, string>) {
    forall config :: config in ConfigsIn(h, s) ==> Carries(config.env, secrets)
  }

  lemma NewConfigCarries(s: string, svc: Service, stack: string, secrets: seq<Secret>)
    requires PlainNames(secrets)
    ensures Carries(ConfigFor(s, svc, stack, secrets).env, ByName(secrets))
  {
    forall n | n in ByName(secrets)
      ensures LastEntry(Merge(svc.environment, secrets), n) == Text.Some(Assignment(n, ByName(secrets)[n])) {
      SecretsWin(svc.environment, secrets, n);
    }
  }

  ghost predicate Plain(state: State) {
    PlainNames(state.table) && PlainNames(state.deployed) && (state.run.Running? ==> PlainNames(state.run.snapshot))
  }

  /** The environment this deploy gives the service when it is called with these secrets. */
  ghost predicate ComposedBy(env: seq<string>, s: string, d: Deploy, t: seq<Secret>, secrets: map<string, string>) {
    s in d.services && env == Merge(d.services[s].environment, t) && PlainNames(t) && ByName(t) == secrets
  }

  /** The compose environment of one of the deploys, with exactly these secrets over it. */
  ghost predicate Composed(env: seq<string>, s: string, deploys: seq<Deploy>, secrets: map<string, string>) {
    exists d, t :: d in deploys && ComposedBy(env, s, d, t, secrets)
  }

  ghost predicate Made(x: System, config: Config, s: string, secrets: map<string, string>) {
    || (x.untouched && secrets == map[] && config in ConfigsIn(x.origin, s))
    || Composed(config.env, s, x.made, secrets)
  }

  ghost predicate AllMade(x: System, s: string) {
    forall config :: config in ConfigsIn(x.host, s) ==> Made(x, config, s, ByName(x.state.deployed))
  }

  lemma MadeCarries(x: System, config: Config, s: string, secrets: map<string, string>)
    requires Made(x, config, s, secrets)
    ensures Carries(config.env, secrets)
  {
    if Composed(config.env, s, x.made, secrets) {
      var d, t :| d in x.made && ComposedBy(config.env, s, d, t, secrets);
      forall n | n in secrets ensures LastEntry(config.env, n) == Text.Some(Assignment(n, secrets[n])) {
        SecretsWin(d.services[s].environment, t, n);
      }
    }
  }

  /** Later deploys do not unmake what was made. */
  lemma MadeStays(x: System, y: System, config: Config, s: string, secrets: map<string, string>)
    requires Made(x, config, s, secrets) && y.untouched == x.untouched && y.origin == x.origin
    requires forall d :: d in x.made ==> d in y.made
    ensures Made(y, config, s, secrets)
  {
    if Composed(config.env, s, x.made, secrets) {
      var d, t :| d in x.made && ComposedBy(config.env, s, d, t, secrets);
      assert d in y.made;
    }
  }

  ghost predicate Invariant(x: System, names: seq<string>, digest: Digest) {
    && Faithful(x.state, digest) && Plain(x.state) && x.host.Valid()
    && (x.untouched ==> ByName(x.state.deployed) == map[])
    && (forall s :: s in x.current ==> s in names && AllMade(x, s))
  }

  lemma NextPlain(state: State, step: Step, digest: Digest)
    requires Faithful(state, digest) && Plain(state) && (step.Upsert? ==> '=' !in step.name)
    ensures Plain(Next(state, step, digest))
  {
    match step
    case Upsert(name, value) => UpsertDistinct(state.table, name, value);
    case Delete(name) => DeleteDistinct(state.table, name);
    case _ =>
  }

  lemma HostChangeKeepsInvariant(x: System, w: Host, names: seq<string>, digest: Digest)
    requires Invariant(x, names, digest) && w.Valid() && forall s :: ConfigsIn(w, s) <= ConfigsIn(x.host, s)
    ensures Invariant(x.(host := w), names, digest)
  {
    forall s | s in x.current ensures AllMade(x.(host := w), s) {
      assert AllMade(x, s);
    }
  }

  lemma ChangesKeepsInvariant(x: System, id: nat, running: bool, health: Health, names: seq<string>, digest: Digest)
    requires Invariant(x, names, digest)
    ensures Invariant(x.(host := Report(x.host, id, running, health)), names, digest)
  {
    var w := Report(x.host, id, running, health);
    AmendEffect(x.host.containers, id, Reports(running, health));
    forall c | c in w.containers ensures c.id < w.nextId {
      var i :| 0 <= i < |w.containers| && w.containers[i] == c;
      assert x.host.containers[i] in x.host.containers;
    }
    forall s ensures ConfigsIn(w, s) <= ConfigsIn(x.host, s) {
      FromAmend(x.host, id, Reports(running, health), s, {});
      FromConfigs(x.host, w, s, {});
    }
    HostChangeKeepsInvariant(x, w, names, digest);
  }

  lemma VanishesKeepsInvariant(x: System, id: nat, names: seq<string>, digest: Digest)
    requires Invariant(x, names, digest)
    ensures Invariant(x.(host := Remove(x.host, id)), names, digest)
  {
    DropMembers(x.host.containers, id);
    forall s ensures ConfigsIn(Remove(x.host, id), s) <= ConfigsIn(x.host, s) {
      FromRemove(x.host, id, s, {});
      FromConfigs(x.host, Remove(x.host, id), s, {});
    }
    HostChangeKeepsInvariant(x, Remove(x.host, id), names, digest);
  }

  /** What a deploy creates has its compose environment and its snapshot. */
  lemma NewConfigComposed(s: string, d: Deploy, snapshot: seq<Secret>, deploys: seq<Deploy>)
    requires s in d.services && d in deploys && PlainNames(snapshot)
    ensures Composed(ConfigFor(s, d.services[s], d.stack, snapshot).env, s, deploys, ByName(snapshot))
  {
    var env := ConfigFor(s, d.services[s], d.stack, snapshot).env;
    assert ComposedBy(env, s, d, snapshot, ByName(snapshot));
  }

  /** Without drift the snapshot is what is deployed, so whatever the deploy creates comes from it too. */
  lemma UndriftedFinishMakes(x: System, d: Deploy, s: string, names: seq<string>, digest: Digest)
    requires CollisionFree(digest) && Invariant(x, names, digest) && x.state.run.Running? && !Drifted(x.state, digest)
    requires Separate(names) && Legal(Finish(d), names) && s in x.current
    ensures ByName(x.state.run.snapshot) == ByName(x.state.deployed)
    ensures forall config :: config in ConfigsIn(FinalHost(x.host, Executed(x, d, digest)), s) ==>
              config in ConfigsIn(x.host, s) || Composed(config.env, s, x.made + [d], ByName(x.state.deployed))
  {
    var input := InputOf(x.state, d, digest);
    HashExactly(x.state.run.snapshot, x.state.deployed, digest);
    ExecuteDeployAllowed(x.host, d.order, names, input, d.env);
    var end := FinalHost(x.host, Executed(x, d, digest));
    assert ConfigsIn(end, s) <= Allowed(x.host, s, input);
    if s in d.services {
      NewConfigComposed(s, d, x.state.run.snapshot, x.made + [d]);
    }
  }

  /** After success under drift, the services deployed with working removals come from the snapshot and nothing else. */
  lemma DriftedSuccessMakes(x: System, d: Deploy, s: string, names: seq<string>, digest: Digest)
    requires Invariant(x, names, digest) && x.state.run.Running? && Drifted(x.state, digest)
    requires Legal(Finish(d), names) && Executed(x, d, digest).outcome.Done?
    requires s in CurrentAfter(x, d, Done)
    ensures forall config :: config in ConfigsIn(FinalHost(x.host, Executed(x, d, digest)), s) ==>
              Composed(config.env, s, [d], ByName(x.state.run.snapshot))
  {
    SuccessConvergesAll(x.host, d.order, InputOf(x.state, d, digest), d.env, s);
    NewConfigComposed(s, d, x.state.run.snapshot, [d]);
  }

  lemma ClearOfList(list: seq<string>, names: seq<string>, s: string)
    requires Separate(names) && s in names && s !in list && forall n :: n in list ==> n in names
    ensures ClearOf(s, list)
  {
    forall n | n in list ensures !Clash(n, s) {
      SeparateNames(names, n, s);
    }
  }

  lemma {:induction false} UptoMembers(order: seq<string>, f: string)
    ensures forall s :: s in Upto(order, f) ==> s in order
  {
    if order != [] && order[0] != f {
      UptoMembers(order[1..], f);
    }
  }

  lemma RestoredConfigs(h: Host, end: Host, s: string)
    requires Restored(end, s, Configs(Of(h.containers, s)))
    ensures ConfigsIn(end, s) <= ConfigsIn(h, s)
  {
    var was, now := Configs(Of(h.containers, s)), Configs(Of(end.containers, s));
    forall c | c in Of(end.containers, s) ensures c.config in ConfigsIn(h, s) {
      var i :| 0 <= i < |now| && Of(end.containers, s)[i] == c;
      assert now[i] in multiset(now) && now[i] in multiset(was);
      var j :| 0 <= j < |was| && was[j] == c.config;
      assert Of(h.containers, s)[j] in Of(h.containers, s);
    }
  }

  /** A service that is neither up to the failing one nor the failing one keeps its containers. */
  lemma BehindFailureKeeps(x: System, d: Deploy, f: string, s: string, names: seq<string>, digest: Digest)
    requires x.host.Valid() && x.state.run.Running? && Separate(names) && Legal(Finish(d), names)
    requires s in names && s !in Upto(d.order, f)
    requires var outcome := Executed(x, d, digest).outcome;
             outcome == BindError(f) || (outcome == RolledBack(f) && s != f)
    ensures Of(FinalHost(x.host, Executed(x, d, digest)).containers, s) == Of(x.host.containers, s)
  {
    var input := InputOf(x.state, d, digest);
    UptoMembers(d.order, f);
    ClearOfList(Upto(d.order, f), names, s);
    ExecuteDeployExits(x.host, d.order, input, d.env);
    if s != f {
      SeparateNames(names, f, s);
    }
  }

  /** After a failure under drift, a service that stays current has only configurations it had before. */
  lemma DriftedFailureKeeps(x: System, d: Deploy, s: string, names: seq<string>, digest: Digest)
    requires x.host.Valid() && x.state.run.Running? && Separate(names) && Legal(Finish(d), names) && s in names
    requires !Executed(x, d, digest).outcome.Done?
    requires s in CurrentAfter(x, d, Executed(x, d, digest).outcome)
    ensures ConfigsIn(FinalHost(x.host, Executed(x, d, digest)), s) <= ConfigsIn(x.host, s)
  {
    var input, run := InputOf(x.state, d, digest), Executed(x, d, digest);
    if s !in d.services {
      ExecuteDeployAllowed(x.host, d.order, names, input, d.env);
    } else {
      match run.outcome
      case NotPrepared =>
        if d.env.prepared {
          ExecuteDeployExits(x.host, d.order, input, d.env);
        }
      case BindError(f) =>
        BehindFailureKeeps(x, d, f, s, names, digest);
      case RolledBack(f) =>
        if s in Upto(d.order, f) {
          FailureRollsBack(x.host, d.order, input, d.env, f, s);
          RestoredConfigs(x.host, FinalHost(x.host, run), s);
        } else {
          BehindFailureKeeps(x, d, f, s, names, digest);
        }
    }
  }

  /** The parts of the system after a deploy. */
  lemma AfterFinish(x: System, d: Deploy, digest: Digest)
    requires x.state.run.Running?
    ensures var y, run, drifted := After(x, Finish(d), digest), Executed(x, d, digest), Drifted(x.state, digest);
            && y.host == FinalHost(x.host, run) && y.origin == x.origin
            && y.current == (if drifted then CurrentAfter(x, d, run.outcome) else x.current)
            && y.made == (if drifted && run.outcome.Done? then [d] else x.made + [d])
            && y.untouched == (x.untouched && !(drifted && run.outcome.Done?))
            && y.state == Next(x.state, EndDeploy(run.outcome.Done?), digest)
            && y.state.deployed == if run.outcome.Done? then x.state.run.snapshot else x.state.deployed
  {
  }

  /** Without drift. */
  lemma UndriftedKeepsMade(x: System, y: System, d: Deploy, s: string, names: seq<string>, digest: Digest)
    requires CollisionFree(digest) && Invariant(x, names, digest) && Separate(names) && Legal(Finish(d), names)
    requires x.state.run.Running? && !Drifted(x.state, digest) && s in x.current
    requires y.host == FinalHost(x.host, Executed(x, d, digest)) && y.origin == x.origin && y.made == x.made + [d]
    requires y.untouched == x.untouched
    requires y.state.deployed == x.state.run.snapshot || y.state.deployed == x.state.deployed
    ensures AllMade(y, s) && ByName(y.state.deployed) == ByName(x.state.deployed)
  {
    UndriftedFinishMakes(x, d, s, names, digest);
    forall config | config in ConfigsIn(y.host, s) ensures Made(y, config, s, ByName(x.state.deployed)) {
      if config in ConfigsIn(x.host, s) {
        assert AllMade(x, s);
        MadeStays(x, y, config, s, ByName(x.state.deployed));
      }
    }
  }

  /** With drift, whether the deploy failed or not. */
  lemma DriftedKeepsMade(x: System, y: System, d: Deploy, s: string, names: seq<string>, digest: Digest)
    requires Invariant(x, names, digest) && Separate(names) && Legal(Finish(d), names)
    requires x.state.run.Running? && Drifted(x.state, digest)
    requires y.host == FinalHost(x.host, Executed(x, d, digest)) && y.origin == x.origin
    requires s in names && s in CurrentAfter(x, d, Executed(x, d, digest).outcome)
    requires if Executed(x, d, digest).outcome.Done? then
               y.made == [d] && y.state.deployed == x.state.run.snapshot
             else
               && y.made == x.made + [d] && y.state.deployed == x.state.deployed && y.untouched == x.untouched
               && s in x.current
    ensures AllMade(y, s)
  {
    if Executed(x, d, digest).outcome.Done? {
      DriftedSuccessMakes(x, d, s, names, digest);
    } else {
      DriftedFailureKeeps(x, d, s, names, digest);
      forall config | config in ConfigsIn(y.host, s) ensures Made(y, config, s, ByName(x.state.deployed)) {
        assert AllMade(x, s);
        MadeStays(x, y, config, s, ByName(x.state.deployed));
      }
    }
  }

  lemma CurrentShrinksOnFailure(x: System, d: Deploy, outcome: Outcome)
    requires !outcome.Done?
    ensures CurrentAfter(x, d, outcome) <= x.current
  {
  }

  /** Whatever the outcome, the services that are current afterwards come from what is then deployed. */
  lemma FinishKeepsMade(x: System, d: Deploy, s: string, names: seq<string>, digest: Digest)
    requires CollisionFree(digest) && Invariant(x, names, digest) && Separate(names) && Legal(Finish(d), names)
    requires x.state.run.Running? && s in After(x, Finish(d), digest).current
    ensures s in names && AllMade(After(x, Finish(d), digest), s)
  {
    var y, outcome := After(x, Finish(d), digest), Executed(x, d, digest).outcome;
    AfterFinish(x, d, digest);
    if !Drifted(x.state, digest) {
      UndriftedKeepsMade(x, y, d, s, names, digest);
    } else {
      if !outcome.Done? {
        CurrentShrinksOnFailure(x, d, outcome);
      }
      DriftedKeepsMade(x, y, d, s, names, digest);
    }
  }

  lemma UntouchedHasNone(x: System, d: Deploy, names: seq<string>, digest: Digest)
    requires CollisionFree(digest) && Invariant(x, names, digest) && x.state.run.Running?
    ensures After(x, Finish(d), digest).untouched ==> ByName(After(x, Finish(d), digest).state.deployed) == map[]
  {
    AfterFinish(x, d, digest);
    HashExactly(x.state.run.snapshot, x.state.deployed, digest);
  }

  lemma FinishKeepsInvariant(x: System, d: Deploy, names: seq<string>, digest: Digest)
    requires CollisionFree(digest) && Invariant(x, names, digest) && Separate(names) && Legal(Finish(d), names)
    requires x.state.run.Running?
    ensures Invariant(After(x, Finish(d), digest), names, digest)
  {
    var y, run := After(x, Finish(d), digest), Executed(x, d, digest);
    NextFaithful(x.state, EndDeploy(run.outcome.Done?), digest);
    NextPlain(x.state, EndDeploy(run.outcome.Done?), digest);
    ExecuteDeployAllowed(x.host, d.order, names, InputOf(x.state, d, digest), d.env);
    AfterFinish(x, d, digest);
    UntouchedHasNone(x, d, names, digest);
    forall s | s in y.current ensures s in names && AllMade(y, s) {
      FinishKeepsMade(x, d, s, names, digest);
    }
  }

  lemma SecretsKeepInvariant(x: System, step: Step, names: seq<string>, digest: Digest)
    requires Invariant(x, names, digest) && Legal(Secrets(step), names)
    ensures Invariant(x.(state := Next(x.state, step, digest)), names, digest)
  {
    NextFaithful(x.state, step, digest);
    NextPlain(x.state, step, digest);
    assert Next(x.state, step, digest).deployed == x.state.deployed;
  }

  lemma AfterKeepsInvariant(x: System, e: Event, names: seq<string>, digest: Digest)
    requires CollisionFree(digest) && Invariant(x, names, digest) && Separate(names) && Legal(e, names)
    ensures Invariant(After(x, e, digest), names, digest)
  {
    match e
    case Secrets(step) => SecretsKeepInvariant(x, step, names, digest);
    case Changes(id, running, health) => ChangesKeepsInvariant(x, id, running, health, names, digest);
    case Vanishes(id) => VanishesKeepsInvariant(x, id, names, digest);
    case Finish(d) =>
      if x.state.run.Running? {
        FinishKeepsInvariant(x, d, names, digest);
      }
  }

  lemma {:induction false} RunKeepsInvariant(x: System, events: seq<Event>, names: seq<string>, digest: Digest)
    requires CollisionFree(digest) && Invariant(x, names, digest) && Separate(names) && AllLegal(events, names)
    ensures Invariant(RunFrom(x, events, digest), names, digest)
  {
    if events != [] {
      var init := events[..|events| - 1];
      assert AllLegal(init, names) && events[|events| - 1] in events;
      RunKeepsInvariant(x, init, names, digest);
      AfterKeepsInvariant(RunFrom(x, init, digest), events[|events| - 1], names, digest);
    }
  }

  lemma BegunHolds(h: Host, names: seq<string>, digest: Digest)
    requires h.Valid()
    ensures Invariant(Begun(h, names), names, digest)
  {
    assert ByName([]) == map[];
  }

  // ---------------------------------------------------------------------------------------------
  // Main results
  // ---------------------------------------------------------------------------------------------

  /** The system after these events, from the start. */
  ghost function Reach(h: Host, names: seq<string>, events: seq<Event>, digest: Digest): System {
    RunFrom(Begun(h, names), events, digest)
  }

  /**
   Over every run: when no secrets drift is reported, every container of every current service was created from a
   compose environment deployed for it and exactly the secrets in the table, so it carries each of them and none that
   was deleted; or it is left from before the first such deploy, and the table is empty.
   */
  lemma SilenceMeansCurrent(h: Host, names: seq<string>, events: seq<Event>, digest: Digest, s: string, c: Container)
    requires CollisionFree(digest) && h.Valid() && Separate(names) && AllLegal(events, names)
    requires var x := Reach(h, names, events, digest);
             !SecretsDrift.Reported(x.state, digest) && s in x.current && c in Of(x.host.containers, s)
    ensures var x := Reach(h, names, events, digest);
            Made(x, c.config, s, ByName(x.state.table)) && Carries(c.config.env, ByName(x.state.table))
  {
    var x := Reach(h, names, events, digest);
    BegunHolds(h, names, digest);
    RunKeepsInvariant(Begun(h, names), events, names, digest);
    HashExactly(x.state.table, x.state.deployed, digest);
    assert c.config in ConfigsIn(x.host, s) && AllMade(x, s);
    MadeCarries(x, c.config, s, ByName(x.state.table));
  }

  /** This event ends a deploy that began under drift. */
  ghost predicate EndsDrifted(x: System, e: Event, digest: Digest) {
    e.Finish? && x.state.run.Running? && Drifted(x.state, digest)
  }

  ghost predicate NoneDrifted(x: System, events: seq<Event>, digest: Digest) {
    forall k {:trigger events[..k]} :: 0 <= k < |events|
           ==> !EndsDrifted(RunFrom(x, events[..k], digest), events[k], digest)
  }

  lemma {:induction false} NoneDriftedKeepsCurrent(x: System, events: seq<Event>, digest: Digest)
    requires NoneDrifted(x, events, digest)
    ensures var y := RunFrom(x, events, digest);
            && y.current == x.current && y.untouched == x.untouched
            && forall d :: d in y.made ==> d in x.made || Finish(d) in events
  {
    if events != [] {
      var n := |events| - 1;
      var init := events[..n];
      forall k | 0 <= k < |init| ensures !EndsDrifted(RunFrom(x, init[..k], digest), init[k], digest) {
        assert init[..k] == events[..k];
      }
      NoneDriftedKeepsCurrent(x, init, digest);
      assert events[..n] == init && events == init + [events[n]];
      UndriftedStep(RunFrom(x, init, digest), events[n], digest);
    }
  }

  lemma UndriftedStep(x: System, e: Event, digest: Digest)
    requires !EndsDrifted(x, e, digest)
    ensures var y := After(x, e, digest);
            && y.current == x.current && y.untouched == x.untouched
            && forall d :: d in y.made ==> d in x.made || e == Finish(d)
  {
    if e.Finish? && x.state.run.Running? {
      AfterFinish(x, e.deploy, digest);
    }
  }

  lemma {:induction false} RunFromConcat(x: System, a: seq<Event>, b: seq<Event>, digest: Digest)
    ensures RunFrom(x, a + b, digest) == RunFrom(RunFrom(x, a, digest), b, digest)
    decreases |b|
  {
    if b == [] {
      assert a + b == a;
    } else {
      assert (a + b)[..|a + b| - 1] == a + b[..|b| - 1];
      RunFromConcat(x, a, b[..|b| - 1], digest);
    }
  }

  /** A deploy of this one or of those among the events. */
  ghost predicate ComposedSince(env: seq<string>, s: string, d: Deploy, events: seq<Event>, secrets: map<string,
                                string>) {
    exists e, t :: (e == d || Finish(e) in events) && ComposedBy(env, s, e, t, secrets)
  }

  /**
   In particular: if a deploy begun under drift succeeded with working removals, and none begun under drift has ended
   since, then silence means that the environment of every container of every service it deployed is the compose
   environment of this deploy or of a later one, with exactly the secrets in the table over it.
   */
  lemma SilenceAfterDriftedDeploy(h: Host, names: seq<string>, before: seq<Event>, d: Deploy, after: seq<Event>,
                                  digest: Digest, s: string, c: Container)
    requires CollisionFree(digest) && h.Valid() && Separate(names) && AllLegal(before + [Finish(d)] + after, names)
    requires var x := Reach(h, names, before, digest);
             && EndsDrifted(x, Finish(d), digest) && Executed(x, d, digest).outcome.Done?
             && NoneDrifted(After(x, Finish(d), digest), after, digest)
    requires s in d.order && s in d.services && TeardownsSucceed(d.env.deploy(s))
    requires var y := Reach(h, names, before + [Finish(d)] + after, digest);
             !SecretsDrift.Reported(y.state, digest) && c in Of(y.host.containers, s)
    ensures var table := ByName(Reach(h, names, before + [Finish(d)] + after, digest).state.table);
            ComposedSince(c.config.env, s, d, after, table) && Carries(c.config.env, table)
  {
    var x, y := Reach(h, names, before, digest), Reach(h, names, before + [Finish(d)] + after, digest);
    var table := ByName(y.state.table);
    RunFromConcat(Begun(h, names), before + [Finish(d)], after, digest);
    assert (before + [Finish(d)])[..|before|] == before;
    AfterFinish(x, d, digest);
    NoneDriftedKeepsCurrent(After(x, Finish(d), digest), after, digest);
    SilenceMeansCurrent(h, names, before + [Finish(d)] + after, digest, s, c);
    var e, t :| e in y.made && ComposedBy(c.config.env, s, e, t, table);
    assert e == d || Finish(e) in after;
  }

  // ---------------------------------------------------------------------------------------------
  // What a failed deploy can strand
  // ---------------------------------------------------------------------------------------------

  /** The first service of the order that the compose file defines. */
  function FirstDefined(order: seq<string>, services: map<string, Service>): Text.Option<string> {
    if order == [] then Text.None
    else if order[0] in services then Text.Some(order[0])
    else FirstDefined(order[1..], services)
  }

  /** The first service to deploy is not refused for its ports. */
  predicate CanStrand(order: seq<string>, services: map<string, Service>) {
    var first := FirstDefined(order, services);
    first.Some? && first.value in services && !PortsCollide(services[first.value])
  }

  /** A write, a deploy that starts after it, and the write undone. */
  function Detour(name: string, value: string, was: string, d: Deploy): seq<Event> {
    [Secrets(Upsert(name, value))] + [Secrets(BeginDeploy(true))] + [Finish(d)] + [Secrets(Upsert(name, was))]
  }

  ghost function AfterDetour(x: System, name: string, value: string, was: string, d: Deploy, digest: Digest): System {
    RunFrom(x, Detour(name, value, was, d), digest)
  }

  /** Where the detour's deploy runs: drifted, with the written value. */
  function MidDetour(x: System, name: string, value: string): System {
    var table := UpsertIn(x.state.table, name, value);
    x.(state := x.state.(table := table, run := Running(table)))
  }

  lemma RunThen(x: System, events: seq<Event>, e: Event, digest: Digest)
    ensures RunFrom(x, events + [e], digest) == After(RunFrom(x, events, digest), e, digest)
  {
    assert (events + [e])[..|events|] == events;
  }

  lemma DetourBegins(x: System, name: string, value: string, digest: Digest)
    requires x.state.run.Idle?
    ensures RunFrom(x, [Secrets(Upsert(name, value))] + [Secrets(BeginDeploy(true))], digest)
            == MidDetour(x, name, value)
  {
    assert [] + [Secrets(Upsert(name, value))] == [Secrets(Upsert(name, value))];
    RunThen(x, [], Secrets(Upsert(name, value)), digest);
    RunThen(x, [Secrets(Upsert(name, value))], Secrets(BeginDeploy(true)), digest);
  }

  lemma DetourUnfolds(x: System, name: string, value: string, was: string, d: Deploy, digest: Digest)
    requires x.state.run.Idle?
    ensures AfterDetour(x, name, value, was, d, digest)
            == After(After(MidDetour(x, name, value), Finish(d), digest), Secrets(Upsert(name, was)), digest)
  {
    var begin := [Secrets(Upsert(name, value))] + [Secrets(BeginDeploy(true))];
    DetourBegins(x, name, value, digest);
    RunThen(x, begin, Finish(d), digest);
    RunThen(x, begin + [Finish(d)], Secrets(Upsert(name, was)), digest);
  }

  /** Writing back the value a name had restores the table. */
  lemma {:induction false} UpsertBack(table: seq<Secret>, i: nat, value: string)
    requires DistinctNames(table) && i < |table|
    ensures UpsertIn(UpsertIn(table, table[i].name, value), table[i].name, table[i].value) == table
  {
    var name := table[i].name;
    var out := UpsertIn(table, name, value);
    if table[0].name == name {
      assert i == 0 && out[1..] == table[1..];
    } else {
      assert out[0] == table[0] && out[1..] == UpsertIn(table[1..], name, value);
      UpsertBack(table[1..], i - 1, value);
    }
    assert table == [table[0]] + table[1..];
  }

  /** An idle, silent system, and a new value for a secret it has. */
  ghost predicate Detourable(x: System, name: string, value: string, digest: Digest) {
    && x.state.run.Idle? && !SecretsDrift.Reported(x.state, digest)
    && name in ByName(x.state.table) && ByName(x.state.table)[name] != value
  }

  lemma DetourStates(x: System, name: string, value: string, names: seq<string>, digest: Digest)
    requires CollisionFree(digest) && Invariant(x, names, digest) && Detourable(x, name, value, digest)
    ensures var table := UpsertIn(x.state.table, name, value);
            && DistinctNames(table) && name in ByName(table) && ByName(table)[name] == value
            && UpsertIn(table, name, ByName(x.state.table)[name]) == x.state.table
            && Hash(table, digest) != Hash(x.state.table, digest)
            && Drifted(MidDetour(x, name, value).state, digest)
  {
    var table := UpsertIn(x.state.table, name, value);
    UpsertDistinct(x.state.table, name, value);
    UpsertLookup(x.state.table, name, value);
    var i := ByNameListed(x.state.table, name);
    UpsertBack(x.state.table, i, value);
    HashExactly(table, x.state.table, digest);
  }

  /** The first replica comes up with the new secrets and the deploy then fails. */
  function Strands(replicas: nat): Env {
    Env(true, true, id => true, id => true,
        i => if i > 0 then CreateError
             else if replicas > 1 then Accepted(true)
             else Refused(true, Unhealthy, Teardown(false, false)),
        id => Teardown(true, true), i => "")
  }

  lemma RefusedReplicaStays(h: Host, job: Job, replace: seq<nat>, env: Env)
    requires h.Valid() && job.needNew == 1 && env.fates(0) == Refused(true, Unhealthy, Teardown(false, false))
    ensures var roll := Roll(h, job, 0, replace, env);
            !roll.ok && exists c :: c in Of(Final(h, roll.trace).containers, job.service) && c.config == job.config
  {
    var launch := Launch(h, job, 0, true, Unhealthy, env);
    LaunchStates(h, job, 0, true, Unhealthy, env);
    var c := NewContainer(h, job, 0, true, Unhealthy, env);
    assert launch + [] == launch && c in Of(Final(h, launch).containers, job.service);
  }

  /** For any number of replicas, a drifted deploy can fail and leave a replica with its secrets. */
  lemma FailedDeployStrands(h: Host, req: Request)
    requires h.Valid() && req.secretsChanged && !PortsCollide(req.svc)
    ensures var run := DeployService(h, req, Strands(DesiredReplicas(req.svc)));
            !run.ok && exists c :: c in Of(Final(h, run.trace).containers, req.name)
                                   && c.config == ConfigFor(req.name, req.svc, req.stack, req.secrets)
  {
    var env := Strands(DesiredReplicas(req.svc));
    if DesiredReplicas(req.svc) > 1 {
      FailedDeployLeavesNewReplica(h, req, env);
    } else {
      var cs := Of(h.containers, req.name);
      AllReplaced(h, cs, req.svc, env);
      var plan := PlanFor(Partitioned(h, cs, req.svc, true, env), req.svc);
      RefusedReplicaStays(h, JobFor(req, plan), plan.replace, env);
      var roll := Roll(h, JobFor(req, plan), 0, plan.replace, env);
      assert [] + roll.trace == roll.trace;
    }
  }

  /** The outcomes in which the first deploy of a service strands a replica. */
  function StrandsFirst(services: map<string, Service>): StackEnv {
    StackEnv(true, s => true, s => true, s => Strands(if s in services then DesiredReplicas(services[s]) else 1),
             s => RollbackEnv(true, id => true, id => true, i => true, i => true, i => NoCheck, i => ""))
  }

  lemma {:induction false} FirstFails(h: Host, order: seq<string>, before: Host, input: StackInput, env: StackEnv,
                                      f: string)
    requires FirstDefined(order, input.services) == Text.Some(f) && f in input.services && env.bindOk(f)
    requires !DeployService(h, RequestFor(f, input), env.deploy(f)).ok
    ensures f in order
    ensures DeployFrom(h, order, [], before, input, env)
            == StackRun(DeployService(h, RequestFor(f, input), env.deploy(f)).trace, RolledBack(f))
    decreases |order|
  {
    if order[0] !in input.services {
      FirstFails(h, order[1..], before, input, env, f);
    } else {
      var run := DeployService(h, RequestFor(f, input), env.deploy(f));
      assert run.trace + [] == run.trace;
    }
  }

  lemma {:induction false} NoneDefined(h: Host, order: seq<string>, deployed: seq<string>, before: Host,
                                       input: StackInput, env: StackEnv)
    requires FirstDefined(order, input.services).None?
    ensures DeployFrom(h, order, deployed, before, input, env) == StackRun([], Done)
    decreases |order|
  {
    if order != [] {
      NoneDefined(h, order[1..], deployed, before, input, env);
    }
  }

  lemma {:induction false} FirstPathsFail(h: Host, order: seq<string>, before: Host, input: StackInput, env: StackEnv,
                                          f: string)
    requires FirstDefined(order, input.services) == Text.Some(f) && !env.bindOk(f)
    ensures DeployFrom(h, order, [], before, input, env) == StackRun([], BindError(f))
    decreases |order|
  {
    if order[0] !in input.services {
      FirstPathsFail(h, order[1..], before, input, env, f);
    }
  }

  lemma {:induction false} FirstIsDefined(order: seq<string>, services: map<string, Service>)
    ensures var first := FirstDefined(order, services);
            first.Some? ==> first.value in order && first.value in services
  {
    if order != [] {
      FirstIsDefined(order[1..], services);
    }
  }

  /** Every container of the deployed services carries the table. */
  ghost predicate OrderCarries(x: System, order: seq<string>, services: map<string, Service>) {
    forall s :: s in order && s in services ==> AllCarry(x.host, s, ByName(x.state.table))
  }

  /** A deploy that cannot start its first service leaves the host alone. */
  lemma HarmlessDeploy(h: Host, order: seq<string>, input: StackInput, env: StackEnv)
    requires !CanStrand(order, input.services)
    ensures var run := ExecuteDeploy(h, order, input, env);
            run.trace == [] && (run.outcome.Done? ==> FirstDefined(order, input.services).None?)
  {
    var first := FirstDefined(order, input.services);
    FirstIsDefined(order, input.services);
    if env.prepared {
      if first.None? {
        NoneDefined(h, order, [], h, input, env);
      } else if !env.bindOk(first.value) {
        FirstPathsFail(h, order, h, input, env, first.value);
      } else {
        FirstFails(h, order, h, input, env, first.value);
      }
    }
  }

  /** The deploy in the middle of the detour. */
  function DetourRun(x: System, name: string, value: string, d: Deploy, digest: Digest): StackRun {
    Executed(MidDetour(x, name, value), d, digest)
  }

  /** Where the detour ends: the table as before, and reported only if its deploy succeeded. */
  lemma DetourEnds(x: System, name: string, value: string, d: Deploy, names: seq<string>, digest: Digest)
    requires CollisionFree(digest) && Invariant(x, names, digest) && Detourable(x, name, value, digest)
    ensures var y := AfterDetour(x, name, value, ByName(x.state.table)[name], d, digest);
            var run := DetourRun(x, name, value, d, digest);
            && y.state.table == x.state.table && y.host == FinalHost(x.host, run)
            && (SecretsDrift.Reported(y.state, digest) <==> run.outcome.Done?)
  {
    var was, mid := ByName(x.state.table)[name], MidDetour(x, name, value);
    DetourUnfolds(x, name, value, was, d, digest);
    DetourStates(x, name, value, names, digest);
    AfterFinish(mid, d, digest);
    UpsertAfterEnd(mid.state, DetourRun(x, name, value, d, digest).outcome.Done?, name, was, digest);
  }

  lemma UpsertAfterEnd(state: State, ok: bool, name: string, was: string, digest: Digest)
    requires state.run.Running?
    ensures var end := Next(Next(state, EndDeploy(ok), digest), Upsert(name, was), digest);
            && end.table == UpsertIn(state.table, name, was)
            && end.secretsHash == if ok then Hash(state.run.snapshot, digest) else state.secretsHash
  {
  }

  lemma HarmlessDetour(x: System, name: string, value: string, d: Deploy, names: seq<string>, digest: Digest)
    requires CollisionFree(digest) && Invariant(x, names, digest) && Detourable(x, name, value, digest)
    requires OrderCarries(x, d.order, d.services) && !CanStrand(d.order, d.services)
    ensures OrderCarries(AfterDetour(x, name, value, ByName(x.state.table)[name], d, digest), d.order, d.services)
  {
    DetourEnds(x, name, value, d, names, digest);
    HarmlessDeploy(x.host, d.order, InputOf(MidDetour(x, name, value).state, d, digest), d.env);
  }

  /** A container created with the written value does not carry the table. */
  lemma WrittenValueIsStale(x: System, name: string, value: string, f: string, svc: Service, stack: string,
                            names: seq<string>, digest: Digest)
    requires CollisionFree(digest) && Invariant(x, names, digest) && Detourable(x, name, value, digest) && '=' !in name
    ensures !Carries(ConfigFor(f, svc, stack, UpsertIn(x.state.table, name, value)).env, ByName(x.state.table))
  {
    var table := UpsertIn(x.state.table, name, value);
    UpsertDistinct(x.state.table, name, value);
    DetourStates(x, name, value, names, digest);
    NewConfigCarries(f, svc, stack, table);
    AssignmentInjective(name, value, ByName(x.state.table)[name]);
    assert LastEntry(ConfigFor(f, svc, stack, table).env, name) == Text.Some(Assignment(name, value));
  }

  /** The deploy in the middle of the detour fails and its first service keeps a replica with the written value. */
  lemma StrandedReplica(x: System, name: string, value: string, d: Deploy, names: seq<string>, digest: Digest)
    requires CollisionFree(digest) && Invariant(x, names, digest) && Detourable(x, name, value, digest)
    requires '=' !in name && CanStrand(d.order, d.services) && d.env == StrandsFirst(d.services)
    ensures var y := AfterDetour(x, name, value, ByName(x.state.table)[name], d, digest);
            !SecretsDrift.Reported(y.state, digest) && !OrderCarries(y, d.order, d.services)
  {
    var f, input := FirstDefined(d.order, d.services).value, InputOf(MidDetour(x, name, value).state, d, digest);
    var req := RequestFor(f, input);
    DetourEnds(x, name, value, d, names, digest);
    DetourStates(x, name, value, names, digest);
    FailedDeployStrands(x.host, req);
    FirstFails(x.host, d.order, x.host, input, d.env, f);
    WrittenValueIsStale(x, name, value, f, req.svc, req.stack, names, digest);
    var end := Final(x.host, DeployService(x.host, req, d.env.deploy(f)).trace);
    var c :| c in Of(end.containers, f) && c.config == ConfigFor(f, req.svc, req.stack, req.secrets);
    assert c.config in ConfigsIn(end, f);
  }

  /**
   From any reachable idle state in which nothing is reported and the services to be deployed carry the table: a
   write, a deploy and the write undone stay safe in all outcomes exactly when the deploy cannot start its first
   service. Otherwise it can always fail so that a replica with the undone secret stays, and nothing is reported.
   */
  lemma DetourStrandsExactly(h: Host, names: seq<string>, events: seq<Event>, name: string, value: string,
                             order: seq<string>, stack: string, services: map<string, Service>, digest: Digest)
    requires CollisionFree(digest) && h.Valid() && Separate(names) && AllLegal(events, names)
    requires Detourable(Reach(h, names, events, digest), name, value, digest)
    requires OrderCarries(Reach(h, names, events, digest), order, services)
    ensures var x := Reach(h, names, events, digest);
            var was := ByName(x.state.table)[name];
            (forall env :: var y := AfterDetour(x, name, value, was, Deploy(order, stack, services, env), digest);
                           !SecretsDrift.Reported(y.state, digest) ==> OrderCarries(y, order, services))
            <==> !CanStrand(order, services)
  {
    var x := Reach(h, names, events, digest);
    var was := ByName(x.state.table)[name];
    BegunHolds(h, names, digest);
    RunKeepsInvariant(Begun(h, names), events, names, digest);
    if CanStrand(order, services) {
      var i := ByNameListed(x.state.table, name);
      assert x.state.table[i] in x.state.table;
      StrandedReplica(x, name, value, Deploy(order, stack, services, StrandsFirst(services)), names, digest);
    } else {
      forall env
        ensures var y := AfterDetour(x, name, value, was, Deploy(order, stack, services, env), digest);
                !SecretsDrift.Reported(y.state, digest) ==> OrderCarries(y, order, services)
      {
        HarmlessDetour(x, name, value, Deploy(order, stack, services, env), names, digest);
      }
    }
  }
}

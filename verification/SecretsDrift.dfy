/**
 The life of a stack's secrets hash over whole runs: secrets written at any time, deploys that snapshot them once,
 and the drift check that compares. Deploys and stack updates on one stack do not overlap.
 */
module SecretsDrift {
  import opened Containers
  import opened Rollout
  import opened RolloutProofs
  import opened RolloutTheorems
  import opened SecretMerge
  import opened SecretHash
  import StackRollout
  import Text

  // ---------------------------------------------------------------------------------------------
  // State and steps
  // ---------------------------------------------------------------------------------------------

  datatype InFlight = Idle | Running(snapshot: seq<Secret>)

  /** `table` is the secrets table; `deployed` remembers the snapshot of the last successful deploy. */
  datatype State = State(table: seq<Secret>, secretsHash: string, deployed: seq<Secret>, run: InFlight)

  /** A new stack: no secrets and the zero-value hash. */
  function Initial(): State {
    State([], "", [], Idle)
  }

  datatype Step =
    | Upsert(name: string, value: string)
    | Delete(name: string)
    | BeginDeploy(loadOk: bool)   // runDeployment up to the snapshot; a failed load returns early
    | EndDeploy(ok: bool)         // the rest of runDeployment
    | OtherUpdate                 // any stack update that saves the record it read

  function UpsertIn(table: seq<Secret>, name: string, value: string): seq<Secret> {
    if table == [] then [Secret(name, value)]
    else if table[0].name == name then [Secret(name, value)] + table[1..]
    else [table[0]] + UpsertIn(table[1..], name, value)
  }

  function DeleteIn(table: seq<Secret>, name: string): seq<Secret> {
    if table == [] then []
    else (if table[0].name == name then [] else [table[0]]) + DeleteIn(table[1..], name)
  }

  function Next(s: State, step: Step, digest: Digest): State {
    match step
    case Upsert(name, value) => s.(table := UpsertIn(s.table, name, value))
    case Delete(name) => s.(table := DeleteIn(s.table, name))
    case BeginDeploy(loadOk) => if s.run.Idle? && loadOk then s.(run := Running(s.table)) else s
    case EndDeploy(ok) =>
      if s.run.Idle? then s
      else if ok then s.(secretsHash := Hash(s.run.snapshot, digest), deployed := s.run.snapshot, run := Idle)
      else s.(run := Idle)
    case OtherUpdate => s
  }

  function Run(steps: seq<Step>, digest: Digest): State {
    if steps == [] then Initial() else Next(Run(steps[..|steps| - 1], digest), steps[|steps| - 1], digest)
  }

  /** The drift check's test, and equally the deployer's secretsChanged. */
  predicate Reported(s: State, digest: Digest) {
    Hash(s.table, digest) != s.secretsHash
  }

  // ---------------------------------------------------------------------------------------------
  // What the stored hash stands for
  // ---------------------------------------------------------------------------------------------

  ghost predicate Faithful(s: State, digest: Digest) {
    && DistinctNames(s.table) && DistinctNames(s.deployed)
    && s.secretsHash == Hash(s.deployed, digest)
    && (s.run.Running? ==> DistinctNames(s.run.snapshot))
  }

  lemma {:induction false} UpsertDistinct(table: seq<Secret>, name: string, value: string)
    requires DistinctNames(table)
    ensures DistinctNames(UpsertIn(table, name, value))
    ensures forall r :: r in UpsertIn(table, name, value) ==> r.name == name || r in table
  {
    if table != [] {
      var rest := table[1..];
      assert forall r :: r in rest ==> r in table;
      UpsertDistinct(rest, name, value);
      if table[0].name == name {
        var out := [Secret(name, value)] + rest;
        assert forall i :: 0 < i < |out| ==> out[i] == table[i];
      } else {
        NotAgain(table, UpsertIn(rest, name, value), name);
      }
    }
  }

  /** Nothing taken from the tail, and nothing named otherwise than the head, repeats the head's name. */
  lemma NotAgain(table: seq<Secret>, tail: seq<Secret>, name: string)
    requires DistinctNames(table) && table != [] && table[0].name != name
    requires forall r :: r in tail ==> r.name == name || r in table[1..]
    ensures forall i :: 0 <= i < |tail| ==> tail[i].name != table[0].name
  {
    forall i | 0 <= i < |tail| ensures tail[i].name != table[0].name {
      assert tail[i] in tail;
      if tail[i] in table[1..] {
        var k :| 0 <= k < |table[1..]| && table[1..][k] == tail[i];
        assert table[k + 1] == tail[i];
      }
    }
  }

  lemma {:induction false} DeleteDistinct(table: seq<Secret>, name: string)
    requires DistinctNames(table)
    ensures DistinctNames(DeleteIn(table, name))
    ensures forall r :: r in DeleteIn(table, name) ==> r in table
  {
    if table != [] {
      var rest := table[1..];
      DeleteDistinct(rest, name);
      var tail := DeleteIn(rest, name);
      forall i | 0 <= i < |tail| ensures tail[i].name != table[0].name {
        assert tail[i] in rest;
        var k :| 0 <= k < |rest| && rest[k] == tail[i];
        assert table[k + 1] == tail[i];
      }
    }
  }

  lemma {:induction false} UpsertListed(table: seq<Secret>, name: string, value: string)
    ensures Secret(name, value) in UpsertIn(table, name, value)
  {
    if table != [] && table[0].name != name {
      UpsertListed(table[1..], name, value);
    }
  }

  lemma {:induction false} UpsertLookup(table: seq<Secret>, name: string, value: string)
    requires DistinctNames(table)
    ensures name in ByName(UpsertIn(table, name, value)) && ByName(UpsertIn(table, name, value))[name] == value
  {
    UpsertDistinct(table, name, value);
    UpsertListed(table, name, value);
    var out := UpsertIn(table, name, value);
    var i :| 0 <= i < |out| && out[i] == Secret(name, value);
    OwnValue(out, i);
  }

  lemma {:induction false} UpsertKeeps(table: seq<Secret>, name: string, value: string, r: Secret)
    requires r in table && r.name != name
    ensures r in UpsertIn(table, name, value)
  {
    if table[0].name != name && r != table[0] {
      UpsertKeeps(table[1..], name, value, r);
    }
  }

  lemma {:induction false} DeleteExactly(table: seq<Secret>, name: string)
    ensures forall r :: r in DeleteIn(table, name) <==> r in table && r.name != name
  {
    if table != [] {
      DeleteExactly(table[1..], name);
      assert forall r :: r in table <==> r == table[0] || r in table[1..];
    }
  }

  /** With one row a name, what a table says of a name is what a row says. */
  lemma RowsDecide(a: seq<Secret>, name: string)
    requires DistinctNames(a)
    ensures forall v :: Secret(name, v) in a <==> name in ByName(a) && ByName(a)[name] == v
  {
    forall v | Secret(name, v) in a ensures name in ByName(a) && ByName(a)[name] == v {
      var i :| 0 <= i < |a| && a[i] == Secret(name, v);
      OwnValue(a, i);
    }
    if name in ByName(a) {
      var i := ByNameListed(a, name);
    }
  }

  /** A write gives its name its value and changes no other name. */
  lemma WriteIsOneChange(table: seq<Secret>, name: string, value: string)
    requires DistinctNames(table)
    ensures ByName(UpsertIn(table, name, value)) == ByName(table)[name := value]
  {
    var out := UpsertIn(table, name, value);
    UpsertDistinct(table, name, value);
    UpsertLookup(table, name, value);
    forall n | n != name ensures n in ByName(out) <==> n in ByName(table)
      ensures n in ByName(table) && n in ByName(out) ==> ByName(out)[n] == ByName(table)[n] {
      RowsDecide(table, n);
      RowsDecide(out, n);
      if n in ByName(table) {
        UpsertKeeps(table, name, value, Secret(n, ByName(table)[n]));
      }
      if n in ByName(out) {
        assert Secret(n, ByName(out)[n]) in out;
      }
    }
  }

  /** A deletion takes its name away and changes no other. */
  lemma DeletionIsOneChange(table: seq<Secret>, name: string)
    requires DistinctNames(table)
    ensures ByName(DeleteIn(table, name)) == ByName(table) - {name}
  {
    var out := DeleteIn(table, name);
    DeleteDistinct(table, name);
    DeleteExactly(table, name);
    forall n ensures n in ByName(out) <==> n in ByName(table) && n != name
      ensures n in ByName(table) && n in ByName(out) ==> ByName(out)[n] == ByName(table)[n] {
      RowsDecide(table, n);
      RowsDecide(out, n);
      if n in ByName(table) {
        assert Secret(n, ByName(table)[n]) in table;
      }
      if n in ByName(out) {
        assert Secret(n, ByName(out)[n]) in out;
      }
    }
  }

  lemma NextFaithful(s: State, step: Step, digest: Digest)
    requires Faithful(s, digest)
    ensures Faithful(Next(s, step, digest), digest)
  {
    match step
    case Upsert(name, value) => UpsertDistinct(s.table, name, value);
    case Delete(name) => DeleteDistinct(s.table, name);
    case _ =>
  }

  lemma {:induction false} RunFaithful(steps: seq<Step>, digest: Digest)
    ensures Faithful(Run(steps, digest), digest)
  {
    if steps != [] {
      RunFaithful(steps[..|steps| - 1], digest);
      NextFaithful(Run(steps[..|steps| - 1], digest), steps[|steps| - 1], digest);
    }
  }

  /**
   Over every run, with writes anywhere, even in the middle of a deploy: secrets_changed is reported exactly when
   the current name-to-value map differs from the one the last successful deploy took its snapshot of.
   */
  lemma ReportedExactly(steps: seq<Step>, digest: Digest)
    requires CollisionFree(digest)
    ensures var s := Run(steps, digest); Reported(s, digest) <==> ByName(s.table) != ByName(s.deployed)
  {
    var s := Run(steps, digest);
    RunFaithful(steps, digest);
    HashExactly(s.table, s.deployed, digest);
  }

  lemma RunThen(steps: seq<Step>, step: Step, digest: Digest)
    ensures Run(steps + [step], digest) == Next(Run(steps, digest), step, digest)
  {
    assert (steps + [step])[..|steps + [step]| - 1] == steps;
  }

  /** Neither a failed deploy nor one that could not load its secrets clears a report. */
  lemma FailureNeverClears(steps: seq<Step>, step: Step, digest: Digest)
    requires step == EndDeploy(false) || step.BeginDeploy? || step.OtherUpdate?
    ensures Reported(Run(steps + [step], digest), digest) == Reported(Run(steps, digest), digest)
  {
    RunThen(steps, step, digest);
  }

  /** What a successful deploy stores is the hash of its snapshot. */
  lemma SuccessStoresSnapshot(s: State, digest: Digest)
    requires s.run.Running?
    ensures Next(s, EndDeploy(true), digest)
            == State(s.table, Hash(s.run.snapshot, digest), s.run.snapshot, Idle)
  {
  }

  lemma SnapshotHashExactly(s: State, digest: Digest)
    requires CollisionFree(digest) && Faithful(s, digest) && s.run.Running?
    ensures Hash(s.table, digest) != Hash(s.run.snapshot, digest) <==> ByName(s.table) != ByName(s.run.snapshot)
  {
    HashExactly(s.table, s.run.snapshot, digest);
  }

  /** A write during a deploy survives it: the report after success compares with the snapshot, not the table. */
  lemma MidDeployWriteReported(steps: seq<Step>, digest: Digest)
    requires CollisionFree(digest) && Run(steps, digest).run.Running?
    ensures var s := Run(steps, digest);
            Reported(Run(steps + [EndDeploy(true)], digest), digest) <==> ByName(s.table) != ByName(s.run.snapshot)
  {
    var s := Run(steps, digest);
    RunFaithful(steps, digest);
    RunThen(steps, EndDeploy(true), digest);
    SuccessStoresSnapshot(s, digest);
    SnapshotHashExactly(s, digest);
  }

  // ---------------------------------------------------------------------------------------------
  // What reaches the containers
  // ---------------------------------------------------------------------------------------------

  /** The input a deploy started in state s runs with. */
  ghost predicate StartedFrom(s: State, input: StackRollout.StackInput, digest: Digest) {
    input.secrets == s.table && input.secretsChanged == Reported(s, digest)
  }

  /**
   A successful deploy started while secrets_changed was reported leaves every service of its order with only
   containers created from its snapshot: in each one's environment every secret has the snapshot's value.
   */
  lemma DriftedDeployDelivers(s: State, input: StackRollout.StackInput, digest: Digest, h: Host, order: seq<string>,
                              env: StackRollout.StackEnv, service: string, c: Container, name: string)
    requires StartedFrom(s, input, digest) && Reported(s, digest) && PlainNames(s.table)
    requires h.Valid() && StackRollout.Separate(order)
    requires StackRollout.ExecuteDeploy(h, order, input, env).outcome.Done?
    requires service in order && service in input.services && TeardownsSucceed(env.deploy(service))
    requires c in Of(StackRollout.FinalHost(h, StackRollout.ExecuteDeploy(h, order, input, env)).containers, service)
    requires name in ByName(s.table)
    ensures c.config == ConfigFor(service, input.services[service], input.stack, s.table)
    ensures c.config.image == input.services[service].image && c.config.rest == input.services[service].rest
    ensures c.config.managed && c.config.stack == input.stack && c.config.service == service
    ensures LastEntry(c.config.env, name) == Text.Some(Assignment(name, ByName(s.table)[name]))
  {
    StackRollout.SuccessConvergesAll(h, order, input, env, service);
    SecretsWin(input.services[service].environment, s.table, name);
  }

  // ---------------------------------------------------------------------------------------------
  // What a failed deploy leaves behind
  // ---------------------------------------------------------------------------------------------

  /** A deploy that dies after its first replica leaves that replica, with the new configuration, in place. */
  lemma FailedDeployLeavesNewReplica(h: Host, req: Request, env: Env)
    requires h.Valid() && req.secretsChanged && !PortsCollide(req.svc) && env.preflight && env.listed
    requires DesiredReplicas(req.svc) >= 2 && env.fates(0) == Accepted(true) && env.fates(1) == CreateError
    ensures var run := DeployService(h, req, env);
            !run.ok && exists c :: c in Of(Final(h, run.trace).containers, req.name)
                                   && c.config == ConfigFor(req.name, req.svc, req.stack, req.secrets)
  {
    var cs := Of(h.containers, req.name);
    AllReplaced(h, cs, req.svc, env);
    PlanHolds(h, req, env);
    var p := Partitioned(h, cs, req.svc, true, env);
    var plan := PlanFor(p, req.svc);
    var job := JobFor(req, plan);
    FirstTurnStays(h, job, plan.replace, env);
    var roll := Roll(h, job, 0, plan.replace, env);
    assert [] + roll.trace == roll.trace;
  }
}

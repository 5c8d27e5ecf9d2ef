/**
 executeDeploy: snapshot every service, deploy them in dependency order, and when one fails roll the earlier ones
 back, last first, from the snapshots.
 */
module StackRollout {
  import opened Containers
  import opened Rollout
  import opened RolloutProofs
  import opened RolloutTheorems
  import SecretMerge
  import Text

  // ---------------------------------------------------------------------------------------------
  // Inputs
  // ---------------------------------------------------------------------------------------------

  /** The outcomes of the calls a rollback of one service makes. */
  datatype RollbackEnv = RollbackEnv(
    listed: bool,
    stopOk: nat -> bool, removeOk: nat -> bool,   // by container id
    createOk: nat -> bool, startOk: nat -> bool,  // by position in the snapshot
    health: nat -> Health, stamps: nat -> string)

  ghost predicate RollbackWorks(r: RollbackEnv) {
    && r.listed
    && (forall id {:trigger r.removeOk(id)} :: r.removeOk(id))
    && (forall i {:trigger r.createOk(i)} :: r.createOk(i))
    && (forall i {:trigger r.startOk(i)} :: r.startOk(i))
  }

  datatype StackInput = StackInput(stack: string, services: map<string, Service>, secrets: seq<SecretMerge.Secret>,
                                   secretsChanged: bool)

  datatype StackEnv = StackEnv(
    prepared: bool,               // networks and volumes could be set up
    captured: string -> bool,     // the service's state could be captured
    bindOk: string -> bool,       // its bind-mount paths could be rewritten
    deploy: string -> Env,
    rollback: string -> RollbackEnv)

  datatype Outcome = Done | NotPrepared | BindError(service: string) | RolledBack(service: string)

  datatype StackRun = StackRun(trace: seq<Host>, outcome: Outcome)

  /** The pre-deploy state of a service: what each container was created with, in listing order. */
  type Snapshot = seq<Config>

  datatype Captured = Unknown | Known(snapshot: Snapshot)

  function Configs(cs: seq<Container>): seq<Config> {
    seq(|cs|, i requires 0 <= i < |cs| => cs[i].config)
  }

  function Capture(h: Host, service: string, env: StackEnv): Captured {
    if env.captured(service) then Known(Configs(Of(h.containers, service))) else Unknown
  }

  // ---------------------------------------------------------------------------------------------
  // Rolling one service back
  // ---------------------------------------------------------------------------------------------

  function RemoveCurrent(h: Host, ids: seq<nat>, r: RollbackEnv): Run
    decreases |ids|
  {
    if ids == [] then Run([], true)
    else
      var step := TearDown(h, ids[0], Teardown(r.stopOk(ids[0]), r.removeOk(ids[0])));
      if !r.removeOk(ids[0]) then Run(step, false)
      else
        var rest := RemoveCurrent(Final(h, step), ids[1..], r);
        Run(step + rest.trace, rest.ok)
  }

  function RollbackName(service: string, i: nat, r: RollbackEnv): string {
    service + "_" + ("rollback_" + Text.Decimal(i) + "_" + r.stamps(i))
  }

  function Recreate(h: Host, service: string, snapshot: Snapshot, i: nat, r: RollbackEnv): Run
    requires i <= |snapshot|
    decreases |snapshot| - i
  {
    if i == |snapshot| then Run([], true)
    else if !r.createOk(i) then Run([], false)
    else
      var created := Create(h, RollbackName(service, i, r), snapshot[i]);
      if !r.startOk(i) then Run([created], false)
      else
        var started := Report(created, h.nextId, true, r.health(i));
        var rest := Recreate(started, service, snapshot, i + 1, r);
        Run([created, started] + rest.trace, rest.ok)
  }

  function Ids(cs: seq<Container>): seq<nat> {
    seq(|cs|, i requires 0 <= i < |cs| => cs[i].id)
  }

  /** rollbackService. */
  function RollbackService(h: Host, service: string, snapshot: Snapshot, r: RollbackEnv): Run {
    if snapshot == [] then Run([], true)
    else if !r.listed then Run([], false)
    else
      var removed := RemoveCurrent(h, Ids(Of(h.containers, service)), r);
      if !removed.ok then removed
      else
        var created := Recreate(Final(h, removed.trace), service, snapshot, 0, r);
        Run(removed.trace + created.trace, created.ok)
  }

  /** One service's turn: nothing without a captured state. */
  function RollbackStep(h: Host, s: string, before: Host, env: StackEnv): seq<Host> {
    var captured := Capture(before, s, env);
    if captured.Unknown? then [] else RollbackService(h, s, captured.snapshot, env.rollback(s)).trace
  }

  /** rollbackServices: last deployed first; a failed rollback is logged and the next one tried. */
  function RollbackServices(h: Host, deployed: seq<string>, before: Host, env: StackEnv): seq<Host>
    decreases |deployed|
  {
    if deployed == [] then []
    else
      var step := RollbackStep(h, deployed[|deployed| - 1], before, env);
      step + RollbackServices(Final(h, step), deployed[..|deployed| - 1], before, env)
  }

  // ---------------------------------------------------------------------------------------------
  // The deploy loop
  // ---------------------------------------------------------------------------------------------

  function RequestFor(service: string, input: StackInput): Request
    requires service in input.services
  {
    Request(service, input.services[service], input.stack, input.secrets, input.secretsChanged)
  }

  /** The loop over the ordered services, with `deployed` already done; `before` is the host at capture time. */
  function DeployFrom(h: Host, order: seq<string>, deployed: seq<string>, before: Host, input: StackInput,
                      env: StackEnv): StackRun
    decreases |order|
  {
    if order == [] then StackRun([], Done)
    else if order[0] !in input.services then DeployFrom(h, order[1..], deployed, before, input, env)
    else if !env.bindOk(order[0]) then StackRun([], BindError(order[0]))
    else
      var run := DeployService(h, RequestFor(order[0], input), env.deploy(order[0]));
      var after := Final(h, run.trace);
      if !run.ok then StackRun(run.trace + RollbackServices(after, deployed, before, env), RolledBack(order[0]))
      else
        var rest := DeployFrom(after, order[1..], deployed + [order[0]], before, input, env);
        StackRun(run.trace + rest.trace, rest.outcome)
  }

  /** The Docker part of executeDeploy, once the services are ordered. */
  function ExecuteDeploy(h: Host, order: seq<string>, input: StackInput, env: StackEnv): StackRun {
    if !env.prepared then StackRun([], NotPrepared) else DeployFrom(h, order, [], h, input, env)
  }

  function FinalHost(h: Host, run: StackRun): Host {
    Final(h, run.trace)
  }

  // ---------------------------------------------------------------------------------------------
  // One service's rollback
  // ---------------------------------------------------------------------------------------------

  lemma {:induction false} RemoveCurrentLeaves(h: Host, ids: seq<nat>, r: RollbackEnv, s: string)
    requires h.Valid() && Owned(h, s, ids)
    ensures var run := RemoveCurrent(h, ids, r);
            var end := Final(h, run.trace);
            && Apart(h, end, s)
            && (run.ok ==> forall c :: c in Of(end.containers, s) ==> c in Of(h.containers, s) && c.id !in ids)
    decreases |ids|
  {
    if ids != [] {
      var t := Teardown(r.stopOk(ids[0]), r.removeOk(ids[0]));
      var step := TearDown(h, ids[0], t);
      var next := Final(h, step);
      assert ids[0] in ids;
      TearDownStates(h, ids[0], t, s);
      assert Torn(h, next, ids[0], s);
      if r.removeOk(ids[0]) {
        DropMembers(Of(h.containers, s), ids[0]);
        ConsMember(ids);
        OwnedLater(h, next, s, ids, ids[1..]);
        RemoveCurrentLeaves(next, ids[1..], r, s);
        FinalConcat(h, step, RemoveCurrent(next, ids[1..], r).trace);
      }
    }
  }

  lemma {:induction false} RemoveCurrentSucceeds(h: Host, ids: seq<nat>, r: RollbackEnv)
    requires RollbackWorks(r)
    ensures RemoveCurrent(h, ids, r).ok
    decreases |ids|
  {
    if ids != [] {
      var step := TearDown(h, ids[0], Teardown(r.stopOk(ids[0]), r.removeOk(ids[0])));
      RemoveCurrentSucceeds(Final(h, step), ids[1..], r);
    }
  }

  /** The containers recreated so far stand in front, newest first, all running. */
  ghost predicate Rebuilt(cs: seq<Container>, snapshot: Snapshot, i: nat)
    requires i <= |snapshot|
  {
    && |cs| == i
    && forall k :: 0 <= k < i ==> cs[k].config == snapshot[i - 1 - k] && cs[k].running
  }

  lemma RebuiltOneMore(cs: seq<Container>, c: Container, snapshot: Snapshot, i: nat)
    requires i < |snapshot| && Rebuilt(cs, snapshot, i) && c.config == snapshot[i] && c.running
    ensures Rebuilt([c] + cs, snapshot, i + 1)
  {
  }

  lemma RecreateOne(h: Host, s: string, snapshot: Snapshot, i: nat, r: RollbackEnv)
    requires h.Valid() && i < |snapshot|
    ensures var created := Create(h, RollbackName(s, i, r), snapshot[i]);
            var started := Report(created, h.nextId, true, r.health(i));
            && Apart(h, created, s) && Apart(h, started, s)
            && (Rebuilt(Of(h.containers, s), snapshot, i) ==> Rebuilt(Of(started.containers, s), snapshot, i + 1))
  {
    var suffix := "rollback_" + Text.Decimal(i) + "_" + r.stamps(i);
    AfterCreate(h, s, suffix, snapshot[i]);
    var created := Create(h, RollbackName(s, i, r), snapshot[i]);
    var c := Container(h.nextId, "/" + (s + "_" + suffix), snapshot[i], false, Starting);
    assert Grown(h, created, s, c);
    GrownByReport(h, created, s, c, true, r.health(i));
    if Rebuilt(Of(h.containers, s), snapshot, i) {
      RebuiltOneMore(Of(h.containers, s), c.(running := true, health := r.health(i)), snapshot, i);
    }
  }

  lemma {:induction false} RecreateRebuilds(h: Host, s: string, snapshot: Snapshot, i: nat, r: RollbackEnv)
    requires h.Valid() && i <= |snapshot|
    ensures var run := Recreate(h, s, snapshot, i, r);
            var end := Final(h, run.trace);
            && Apart(h, end, s)
            && (run.ok && Rebuilt(Of(h.containers, s), snapshot, i)
                ==> Rebuilt(Of(end.containers, s), snapshot, |snapshot|))
            && (RollbackWorks(r) ==> run.ok)
    decreases |snapshot| - i
  {
    if i < |snapshot| {
      RecreateOne(h, s, snapshot, i, r);
      var created := Create(h, RollbackName(s, i, r), snapshot[i]);
      var started := Report(created, h.nextId, true, r.health(i));
      RecreateRebuilds(started, s, snapshot, i + 1, r);
      FinalConcat(h, [created, started], Recreate(started, s, snapshot, i + 1, r).trace);
    }
  }

  /** A service is restored: exactly the snapshot's containers, up to order, all running. */
  ghost predicate Restored(h: Host, s: string, snapshot: Snapshot) {
    && multiset(Configs(Of(h.containers, s))) == multiset(snapshot)
    && CountIn(h, s) == |snapshot|
    && forall c :: c in Of(h.containers, s) ==> c.running
  }

  lemma {:induction false} ReversedMultiset(a: seq<Config>, b: seq<Config>)
    requires |a| == |b| && forall k :: 0 <= k < |a| ==> a[k] == b[|b| - 1 - k]
    ensures multiset(a) == multiset(b)
  {
    if a != [] {
      var init := b[..|b| - 1];
      ReversedMultiset(a[1..], init);
      assert a == [a[0]] + a[1..] && b == init + [a[0]];
    }
  }

  /** rollbackService touches only its service, and restores it when its calls succeed. */
  lemma RollbackServiceRestores(h: Host, s: string, snapshot: Snapshot, r: RollbackEnv)
    requires h.Valid()
    ensures var end := Final(h, RollbackService(h, s, snapshot, r).trace);
            && Apart(h, end, s)
            && (snapshot == [] ==> end == h)
            && (RollbackWorks(r) && snapshot != [] ==> Restored(end, s, snapshot))
  {
    var cs := Of(h.containers, s);
    var ids := Ids(cs);
    forall id | id in ids ensures OwnId(h, id, s) && id < h.nextId {
      var i :| 0 <= i < |ids| && ids[i] == id;
      assert cs[i] in cs;
      OwnIdOfMember(h, cs[i], s);
    }
    RemoveCurrentLeaves(h, ids, r, s);
    var removed := RemoveCurrent(h, ids, r);
    var mid := Final(h, removed.trace);
    var created := Recreate(mid, s, snapshot, 0, r);
    RecreateRebuilds(mid, s, snapshot, 0, r);
    FinalConcat(h, removed.trace, created.trace);
    if RollbackWorks(r) && snapshot != [] {
      RemoveCurrentSucceeds(h, ids, r);
      NothingLeft(cs, Of(mid.containers, s));
      RebuiltIsRestored(Final(mid, created.trace), s, snapshot);
    }
  }

  lemma {:induction false} RemovalStops(h: Host, ids: seq<nat>, r: RollbackEnv)
    requires exists id :: id in ids && !r.removeOk(id)
    ensures var run := RemoveCurrent(h, ids, r);
            !run.ok && forall w :: w in run.trace ==> w.nextId == h.nextId
    decreases |ids|
  {
    var step := TearDown(h, ids[0], Teardown(r.stopOk(ids[0]), r.removeOk(ids[0])));
    assert forall w :: w in step ==> w.nextId == h.nextId;
    if r.removeOk(ids[0]) {
      var id :| id in ids && !r.removeOk(id);
      assert id in ids[1..];
      RemovalStops(Final(h, step), ids[1..], r);
    }
  }

  /** A rollback that cannot list, or cannot remove one of the containers there, ends with nothing recreated. */
  lemma RollbackStops(h: Host, s: string, snapshot: Snapshot, r: RollbackEnv, c: Container)
    requires snapshot != []
    requires !r.listed || (c in Of(h.containers, s) && !r.removeOk(c.id))
    ensures var run := RollbackService(h, s, snapshot, r);
            !run.ok && forall w :: w in run.trace ==> w.nextId == h.nextId
  {
    if r.listed {
      IdListed(Of(h.containers, s), c);
      RemovalStops(h, Ids(Of(h.containers, s)), r);
    }
  }

  /** One that cannot create a container of the snapshot ends with exactly those before it recreated. */
  lemma {:induction false} RecreateStops(h: Host, s: string, snapshot: Snapshot, i: nat, at: nat, r: RollbackEnv)
    requires h.Valid() && i <= at < |snapshot| && Rebuilt(Of(h.containers, s), snapshot, i)
    requires (forall k :: i <= k < at ==> r.createOk(k) && r.startOk(k)) && !r.createOk(at)
    ensures var run := Recreate(h, s, snapshot, i, r);
            !run.ok && Rebuilt(Of(Final(h, run.trace).containers, s), snapshot, at)
    decreases at - i
  {
    if i < at {
      RecreateOne(h, s, snapshot, i, r);
      var created := Create(h, RollbackName(s, i, r), snapshot[i]);
      var started := Report(created, h.nextId, true, r.health(i));
      RecreateStops(started, s, snapshot, i + 1, at, r);
      FinalConcat(h, [created, started], Recreate(started, s, snapshot, i + 1, r).trace);
    }
  }

  /** Without its networks and volumes, a deploy ends before it touches anything. */
  lemma UnpreparedStackUntouched(h: Host, order: seq<string>, input: StackInput, env: StackEnv)
    requires !env.prepared
    ensures ExecuteDeploy(h, order, input, env) == StackRun([], NotPrepared)
  {
  }

  lemma NothingLeft(cs: seq<Container>, left: seq<Container>)
    requires forall c :: c in left ==> c in cs && c.id !in Ids(cs)
    ensures left == []
  {
    if left != [] {
      var c := left[0];
      IdListed(cs, c);
    }
  }

  lemma IdListed(cs: seq<Container>, c: Container)
    requires c in cs
    ensures c.id in Ids(cs)
  {
    var i :| 0 <= i < |cs| && cs[i] == c;
    assert Ids(cs)[i] == c.id;
  }

  lemma RebuiltIsRestored(h: Host, s: string, snapshot: Snapshot)
    requires Rebuilt(Of(h.containers, s), snapshot, |snapshot|)
    ensures Restored(h, s, snapshot)
  {
    ReversedMultiset(Configs(Of(h.containers, s)), snapshot);
  }

  // ---------------------------------------------------------------------------------------------
  // The whole rollback
  // ---------------------------------------------------------------------------------------------

  /** No two of the names can claim the same container. */
  ghost predicate Separate(names: seq<string>) {
    forall i, j :: 0 <= i < j < |names| ==> !Clash(names[i], names[j])
  }

  ghost predicate ClearOf(t: string, names: seq<string>) {
    forall n :: n in names ==> !Clash(n, t)
  }

  /** The state of one rolled-back service, as promised. */
  ghost predicate RolledBackAs(h: Host, end: Host, s: string, before: Host, env: StackEnv) {
    var snapshot := Configs(Of(before.containers, s));
    && (env.captured(s) && snapshot != [] && RollbackWorks(env.rollback(s)) ==> Restored(end, s, snapshot))
    && (!env.captured(s) || snapshot == [] ==> Of(end.containers, s) == Of(h.containers, s))
  }

  lemma RollbackStepRestores(h: Host, s: string, before: Host, env: StackEnv)
    requires h.Valid()
    ensures var end := Final(h, RollbackStep(h, s, before, env));
            Apart(h, end, s) && RolledBackAs(h, end, s, before, env)
  {
    if env.captured(s) {
      RollbackServiceRestores(h, s, Configs(Of(before.containers, s)), env.rollback(s));
    }
  }

  lemma {:induction false} RollbackServicesRestore(h: Host, deployed: seq<string>, before: Host, env: StackEnv)
    requires h.Valid() && Separate(deployed)
    ensures var end := Final(h, RollbackServices(h, deployed, before, env));
            && end.Valid()
            && (forall t :: ClearOf(t, deployed) ==> Of(end.containers, t) == Of(h.containers, t))
            && (forall s :: s in deployed ==> RolledBackAs(h, end, s, before, env))
    decreases |deployed|
  {
    if deployed != [] {
      var s, init := deployed[|deployed| - 1], deployed[..|deployed| - 1];
      var step := RollbackStep(h, s, before, env);
      var mid := Final(h, step);
      RollbackStepRestores(h, s, before, env);
      RollbackServicesRestore(mid, init, before, env);
      var end := Final(mid, RollbackServices(mid, init, before, env));
      FinalConcat(h, step, RollbackServices(mid, init, before, env));
      LastClear(deployed);
      forall t | ClearOf(t, deployed) ensures Of(end.containers, t) == Of(h.containers, t) {
        ClearOfInit(t, deployed);
        OthersSeeNothing(h, mid, s, t);
      }
      forall t | t in deployed ensures RolledBackAs(h, end, t, before, env) {
        if t in init {
          ClearSymmetric(s, t);
          OthersSeeNothing(h, mid, s, t);
        } else {
          assert t == s;
        }
      }
    }
  }

  lemma LastClear(deployed: seq<string>)
    requires deployed != [] && Separate(deployed)
    ensures var s, init := deployed[|deployed| - 1], deployed[..|deployed| - 1];
            && ClearOf(s, init) && Separate(init)
            && (forall t :: t in deployed <==> t in init || t == s)
  {
    var s, init := deployed[|deployed| - 1], deployed[..|deployed| - 1];
    assert deployed == init + [s];
    forall n | n in init ensures !Clash(n, s) {
      var i :| 0 <= i < |init| && init[i] == n;
      assert deployed[i] == n;
    }
  }

  lemma ClearOfInit(t: string, deployed: seq<string>)
    requires deployed != [] && ClearOf(t, deployed)
    ensures ClearOf(t, deployed[..|deployed| - 1]) && !Clash(deployed[|deployed| - 1], t)
  {
  }

  // ---------------------------------------------------------------------------------------------
  // The whole deploy: every exit
  // ---------------------------------------------------------------------------------------------

  /** The names that come before the first `f`. */
  function Upto(order: seq<string>, f: string): seq<string> {
    if order == [] || order[0] == f then [] else [order[0]] + Upto(order[1..], f)
  }

  /** The service is as its own successful deploy leaves it. */
  ghost predicate Converged(h: Host, s: string, input: StackInput, env: StackEnv)
    requires s in input.services
  {
    TeardownsSucceed(env.deploy(s)) ==>
      && CountIn(h, s) == DesiredReplicas(input.services[s])
      && forall c :: c in Of(h.containers, s) ==>
           Fits(c, ConfigFor(s, input.services[s], input.stack, input.secrets), input.secretsChanged,
                AllAlive(env.deploy(s)))
  }

  /** An earlier service once the rollback is over: restored, or left as deployed when there was nothing to restore. */
  ghost predicate UndoneOrKept(h: Host, s: string, before: Host, input: StackInput, env: StackEnv)
    requires s in input.services
  {
    var snapshot := Configs(Of(before.containers, s));
    && (env.captured(s) && snapshot != [] && RollbackWorks(env.rollback(s)) ==> Restored(h, s, snapshot))
    && (!env.captured(s) || snapshot == [] ==> Converged(h, s, input, env))
  }

  /** What holds before each turn of the loop. */
  ghost predicate Progress(h: Host, order: seq<string>, deployed: seq<string>, before: Host, input: StackInput,
                           env: StackEnv) {
    && h.Valid() && Separate(deployed) && Separate(order)
    && (forall s :: s in order ==> ClearOf(s, deployed))
    && (forall t :: ClearOf(t, deployed) ==> Of(h.containers, t) == Of(before.containers, t))
    && (forall s :: s in deployed ==> s in input.services && Converged(h, s, input, env))
  }

  ghost predicate DoneAs(end: Host, order: seq<string>, deployed: seq<string>, input: StackInput, env: StackEnv) {
    forall s :: (s in deployed || s in order) && s in input.services ==> Converged(end, s, input, env)
  }

  ghost predicate RolledBackFrom(end: Host, f: string, order: seq<string>, deployed: seq<string>, before: Host,
                                 input: StackInput, env: StackEnv)
  {
    && f in order
    && (forall s :: (s in deployed || s in Upto(order, f)) && s in input.services ==>
          UndoneOrKept(end, s, before, input, env))
    && (forall t :: ClearOf(t, deployed) && ClearOf(t, Upto(order, f)) && !Clash(f, t) ==>
          Of(end.containers, t) == Of(before.containers, t))
  }

  ghost predicate StoppedAt(end: Host, f: string, order: seq<string>, deployed: seq<string>, before: Host,
                            input: StackInput, env: StackEnv)
  {
    && f in order
    && (forall s :: (s in deployed || s in Upto(order, f)) && s in input.services ==> Converged(end, s, input, env))
    && (forall t :: ClearOf(t, deployed) && ClearOf(t, Upto(order, f)) ==>
          Of(end.containers, t) == Of(before.containers, t))
  }

  ghost predicate ExitHolds(end: Host, outcome: Outcome, order: seq<string>, deployed: seq<string>, before: Host,
                            input: StackInput, env: StackEnv)
  {
    match outcome
    case Done => DoneAs(end, order, deployed, input, env)
    case NotPrepared => false
    case BindError(f) => StoppedAt(end, f, order, deployed, before, input, env)
    case RolledBack(f) => RolledBackFrom(end, f, order, deployed, before, input, env)
  }

  lemma HeadClear(order: seq<string>)
    requires order != [] && Separate(order)
    ensures Separate(order[1..])
    ensures forall s :: s in order[1..] ==> !Clash(order[0], s) && s != order[0]
  {
    forall s | s in order[1..] ensures !Clash(order[0], s) {
      var i :| 0 <= i < |order[1..]| && order[1..][i] == s;
      assert order[i + 1] == s;
    }
  }

  lemma SeparateAppend(deployed: seq<string>, s: string)
    requires Separate(deployed) && ClearOf(s, deployed)
    ensures Separate(deployed + [s])
    ensures forall n :: n in deployed + [s] <==> n in deployed || n == s
  {
    var all := deployed + [s];
    forall i, j | 0 <= i < j < |all| ensures !Clash(all[i], all[j]) {
      if j == |deployed| {
        assert all[i] in deployed;
      }
    }
  }

  /** A successful turn. */
  lemma TurnProgress(h: Host, order: seq<string>, deployed: seq<string>, before: Host, input: StackInput, env: StackEnv)
    requires Progress(h, order, deployed, before, input, env) && order != [] && order[0] in input.services
    requires DeployService(h, RequestFor(order[0], input), env.deploy(order[0])).ok
    ensures var after := Final(h, DeployService(h, RequestFor(order[0], input), env.deploy(order[0])).trace);
            Progress(after, order[1..], deployed + [order[0]], before, input, env)
  {
    var s, req := order[0], RequestFor(order[0], input);
    var after := Final(h, DeployService(h, req, env.deploy(s)).trace);
    DeployTouchesOnlyItsService(h, req, env.deploy(s));
    if TeardownsSucceed(env.deploy(s)) {
      DeployConverges(h, req, env.deploy(s));
    }
    assert s in order;
    HeadClear(order);
    SeparateAppend(deployed, s);
    forall t | ClearOf(t, deployed + [s]) ensures Of(after.containers, t) == Of(before.containers, t) {
      assert s in deployed + [s] && forall n :: n in deployed ==> n in deployed + [s];
      OthersSeeNothing(h, after, s, t);
    }
    forall d | d in deployed ensures Of(after.containers, d) == Of(h.containers, d) {
      ClearSymmetric(d, s);
      OthersSeeNothing(h, after, s, d);
    }
    forall n | n in order[1..] ensures ClearOf(n, deployed + [s]) {
      assert n in order;
    }
  }

  /** The failing turn and the rollback that follows it. */
  lemma FailingTurn(h: Host, order: seq<string>, deployed: seq<string>, before: Host, input: StackInput, env: StackEnv)
    requires Progress(h, order, deployed, before, input, env) && order != [] && order[0] in input.services
    ensures var after := Final(h, DeployService(h, RequestFor(order[0], input), env.deploy(order[0])).trace);
            var end := Final(after, RollbackServices(after, deployed, before, env));
            RolledBackFrom(end, order[0], order, deployed, before, input, env)
  {
    var f, req := order[0], RequestFor(order[0], input);
    var after := Final(h, DeployService(h, req, env.deploy(f)).trace);
    DeployTouchesOnlyItsService(h, req, env.deploy(f));
    RollbackServicesRestore(after, deployed, before, env);
    var end := Final(after, RollbackServices(after, deployed, before, env));
    assert f in order;
    forall d | d in deployed ensures d in input.services && UndoneOrKept(end, d, before, input, env) {
      ClearSymmetric(d, f);
      OthersSeeNothing(h, after, f, d);
      assert RolledBackAs(after, end, d, before, env);
    }
    forall t | ClearOf(t, deployed) && !Clash(f, t) ensures Of(end.containers, t) == Of(before.containers, t) {
      OthersSeeNothing(h, after, f, t);
    }
  }

  lemma ExitAfterTurn(end: Host, outcome: Outcome, order: seq<string>, deployed: seq<string>, before: Host,
                      input: StackInput, env: StackEnv)
    requires order != [] && Separate(order)
    requires ExitHolds(end, outcome, order[1..], deployed + [order[0]], before, input, env)
    ensures ExitHolds(end, outcome, order, deployed, before, input, env)
  {
    var s := order[0];
    HeadClear(order);
    assert forall n :: n in order <==> n == s || n in order[1..];
    assert forall n :: n in deployed + [s] <==> n in deployed || n == s;
    if outcome.BindError? || outcome.RolledBack? {
      var f := outcome.service;
      assert Upto(order, f) == [s] + Upto(order[1..], f);
      forall t | ClearOf(t, deployed) && ClearOf(t, Upto(order, f))
        ensures ClearOf(t, deployed + [s]) && ClearOf(t, Upto(order[1..], f)) {
        assert s in Upto(order, f);
      }
    }
  }

  lemma ExitAfterSkip(end: Host, outcome: Outcome, order: seq<string>, deployed: seq<string>, before: Host,
                      input: StackInput, env: StackEnv)
    requires order != [] && Separate(order) && order[0] !in input.services
    requires ExitHolds(end, outcome, order[1..], deployed, before, input, env)
    ensures ExitHolds(end, outcome, order, deployed, before, input, env)
  {
    var s := order[0];
    HeadClear(order);
    assert forall n :: n in order <==> n == s || n in order[1..];
    if outcome.BindError? || outcome.RolledBack? {
      assert Upto(order, outcome.service) == [s] + Upto(order[1..], outcome.service);
    }
  }

  lemma {:induction false} DeployFromExits(h: Host, order: seq<string>, deployed: seq<string>, before: Host,
                                           input: StackInput, env: StackEnv)
    requires Progress(h, order, deployed, before, input, env)
    ensures var run := DeployFrom(h, order, deployed, before, input, env);
            ExitHolds(FinalHost(h, run), run.outcome, order, deployed, before, input, env)
    decreases |order|
  {
    if order != [] {
      var s := order[0];
      HeadClear(order);
      assert forall n :: n in order[1..] ==> n in order;
      if s !in input.services {
        DeployFromExits(h, order[1..], deployed, before, input, env);
        var run := DeployFrom(h, order[1..], deployed, before, input, env);
        ExitAfterSkip(FinalHost(h, run), run.outcome, order, deployed, before, input, env);
      } else if env.bindOk(s) {
        var run := DeployService(h, RequestFor(s, input), env.deploy(s));
        var after := Final(h, run.trace);
        if run.ok {
          TurnProgress(h, order, deployed, before, input, env);
          DeployFromExits(after, order[1..], deployed + [s], before, input, env);
          var rest := DeployFrom(after, order[1..], deployed + [s], before, input, env);
          FinalConcat(h, run.trace, rest.trace);
          ExitAfterTurn(FinalHost(after, rest), rest.outcome, order, deployed, before, input, env);
        } else {
          FailingTurn(h, order, deployed, before, input, env);
          FinalConcat(h, run.trace, RollbackServices(after, deployed, before, env));
        }
      }
    }
  }

  // ---------------------------------------------------------------------------------------------
  // Main results
  // ---------------------------------------------------------------------------------------------

  /** The loop starts with nothing deployed, and every exit is as described. */
  lemma ExecuteDeployExits(h: Host, order: seq<string>, input: StackInput, env: StackEnv)
    requires h.Valid() && Separate(order) && env.prepared
    ensures var run := ExecuteDeploy(h, order, input, env);
            ExitHolds(FinalHost(h, run), run.outcome, order, [], h, input, env)
  {
    DeployFromExits(h, order, [], h, input, env);
  }

  /**
   When the deploy of service f fails: every earlier service that was captured with at least one container, and
   whose rollback calls succeed, ends with exactly its snapshot's containers; earlier services that had none (or
   could not be captured) stay as newly deployed; every later service, and every container whose name no service
   up to f can claim, is exactly as before.
   */
  lemma FailureRollsBack(h: Host, order: seq<string>, input: StackInput, env: StackEnv, f: string, s: string)
    requires h.Valid() && Separate(order)
    requires ExecuteDeploy(h, order, input, env).outcome == RolledBack(f)
    ensures var end := FinalHost(h, ExecuteDeploy(h, order, input, env));
            && (s in Upto(order, f) && s in input.services ==> UndoneOrKept(end, s, h, input, env))
            && (s in order && s !in Upto(order, f) && s != f ==> Of(end.containers, s) == Of(h.containers, s))
            && (ClearOf(s, Upto(order, f)) && !Clash(f, s) ==> Of(end.containers, s) == Of(h.containers, s))
  {
    ExecuteDeployExits(h, order, input, env);
    if s in order && s !in Upto(order, f) && s != f {
      LaterIsClear(order, f, s);
    }
  }

  lemma {:induction false} LaterIsClear(order: seq<string>, f: string, s: string)
    requires Separate(order) && f in order && s in order && s !in Upto(order, f) && s != f
    ensures ClearOf(s, Upto(order, f)) && !Clash(f, s)
  {
    HeadClear(order);
    if order[0] != f {
      LaterIsClear(order[1..], f, s);
    }
  }

  /**
   A bind-mount path that cannot be rewritten ends the deploy without any rollback: the services before it stay as
   newly deployed, everything else as before.
   */
  lemma BindErrorKeepsWhatWasDeployed(h: Host, order: seq<string>, input: StackInput, env: StackEnv, f: string,
                                      s: string)
    requires h.Valid() && Separate(order)
    requires ExecuteDeploy(h, order, input, env).outcome == BindError(f)
    ensures var end := FinalHost(h, ExecuteDeploy(h, order, input, env));
            && (s in Upto(order, f) && s in input.services ==> Converged(end, s, input, env))
            && (ClearOf(s, Upto(order, f)) ==> Of(end.containers, s) == Of(h.containers, s))
  {
    ExecuteDeployExits(h, order, input, env);
  }

  /** f is the first service to deploy whose paths cannot be rewritten, and no earlier one is refused for its ports. */
  predicate StopsAt(order: seq<string>, input: StackInput, bindOk: string -> bool, f: string) {
    && f in order && f in input.services && !bindOk(f)
    && forall s :: s in Upto(order, f) && s in input.services ==> bindOk(s) && !PortsCollide(input.services[s])
  }

  lemma {:induction false} BindErrorNeeds(h: Host, order: seq<string>, deployed: seq<string>, before: Host,
                                          input: StackInput, env: StackEnv, f: string)
    requires DeployFrom(h, order, deployed, before, input, env).outcome == BindError(f)
    ensures StopsAt(order, input, env.bindOk, f)
    decreases |order|
  {
    var s := order[0];
    if s !in input.services {
      BindErrorNeeds(h, order[1..], deployed, before, input, env, f);
    } else if env.bindOk(s) {
      var run := DeployService(h, RequestFor(s, input), env.deploy(s));
      BindErrorNeeds(Final(h, run.trace), order[1..], deployed + [s], before, input, env, f);
    }
  }

  lemma {:induction false} BindErrorReached(h: Host, order: seq<string>, deployed: seq<string>, before: Host,
                                            input: StackInput, env: StackEnv, f: string)
    requires StopsAt(order, input, env.bindOk, f) && forall s :: env.deploy(s) == GoesWell(id => true)
    ensures DeployFrom(h, order, deployed, before, input, env).outcome == BindError(f)
    decreases |order|
  {
    var s := order[0];
    if s != f {
      assert Upto(order, f) == [s] + Upto(order[1..], f);
      assert s in Upto(order, f) && forall n :: n in Upto(order[1..], f) ==> n in Upto(order, f);
      if s in input.services {
        DeployGoesWell(h, RequestFor(s, input), id => true);
        var run := DeployService(h, RequestFor(s, input), env.deploy(s));
        BindErrorReached(Final(h, run.trace), order[1..], deployed + [s], before, input, env, f);
      } else {
        BindErrorReached(h, order[1..], deployed, before, input, env, f);
      }
    }
  }

  /** With these outcomes the deploy gets to its loop and ends because the paths of f cannot be rewritten. */
  ghost predicate EndsAtPaths(h: Host, order: seq<string>, input: StackInput, bindOk: string -> bool, f: string,
                              env: StackEnv) {
    env.prepared && env.bindOk == bindOk && ExecuteDeploy(h, order, input, env).outcome == BindError(f)
  }

  /** The outcome of every call going well but the rewriting of some paths. */
  function OnlyPathsFail(bindOk: string -> bool): StackEnv {
    StackEnv(true, s => true, bindOk, s => GoesWell(id => true),
             s => RollbackEnv(true, id => true, id => true, i => true, i => true, i => NoCheck, i => ""))
  }

  /**
   The way out without rollback is taken, in some outcome, exactly at the first service whose paths cannot be
   rewritten, provided no service before it is refused for its ports. Where every path can be, it never is.
   */
  lemma BindErrorExactly(h: Host, order: seq<string>, input: StackInput, bindOk: string -> bool, f: string)
    ensures (exists env :: EndsAtPaths(h, order, input, bindOk, f, env)) <==> StopsAt(order, input, bindOk, f)
  {
    if env :| EndsAtPaths(h, order, input, bindOk, f, env) {
      BindErrorNeeds(h, order, [], h, input, env, f);
    }
    if StopsAt(order, input, bindOk, f) {
      BindErrorReached(h, order, [], h, input, OnlyPathsFail(bindOk), f);
      assert EndsAtPaths(h, order, input, bindOk, f, OnlyPathsFail(bindOk));
    }
  }

  /** And then earlier services can all have been deployed, and stay so: nothing rolls them back. */
  lemma BindErrorStrandsEarlier(h: Host, order: seq<string>, input: StackInput, bindOk: string -> bool, f: string,
                                s: string)
    requires h.Valid() && Separate(order) && StopsAt(order, input, bindOk, f)
    requires s in Upto(order, f) && s in input.services
    ensures var run := ExecuteDeploy(h, order, input, OnlyPathsFail(bindOk));
            && run.outcome == BindError(f)
            && CountIn(FinalHost(h, run), s) == DesiredReplicas(input.services[s])
            && forall c :: c in Of(FinalHost(h, run).containers, s) ==>
                 Fits(c, ConfigFor(s, input.services[s], input.stack, input.secrets), input.secretsChanged, true)
  {
    BindErrorReached(h, order, [], h, input, OnlyPathsFail(bindOk), f);
    BindErrorKeepsWhatWasDeployed(h, order, input, OnlyPathsFail(bindOk), f, s);
  }

  /** A successful deploy converges every service of the order that the compose file defines. */
  lemma SuccessConvergesAll(h: Host, order: seq<string>, input: StackInput, env: StackEnv, s: string)
    requires h.Valid() && Separate(order)
    requires ExecuteDeploy(h, order, input, env).outcome.Done?
    requires s in order && s in input.services
    ensures Converged(FinalHost(h, ExecuteDeploy(h, order, input, env)), s, input, env)
  {
    ExecuteDeployExits(h, order, input, env);
  }
}

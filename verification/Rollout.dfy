/**
 deployService as a function from the Docker host and the outcomes of each call to the list of every state the
 host passes through. The theorems about it speak of all outcomes, all intermediate states and all failure exits.
 */
module Rollout {
  import opened Containers
  import Ports
  import SecretMerge
  import Text

  // ---------------------------------------------------------------------------------------------
  // Inputs
  // ---------------------------------------------------------------------------------------------

  datatype Service = Service(image: string, replicas: ReplicaSetting, ports: seq<string>, hasHealthCheck: bool,
                             environment: seq<string>, rest: string)

  datatype ReplicaSetting = Unset | Replicas(n: int)

  /** Missing or non-positive counts mean one replica. */
  function DesiredReplicas(svc: Service): (n: nat)
    ensures n >= 1 && (n == 1 || svc.replicas == Replicas(n))
    ensures svc.replicas.Replicas? && svc.replicas.n >= 1 ==> n == svc.replicas.n
  {
    if svc.replicas.Unset? || svc.replicas.n <= 0 then 1 else svc.replicas.n
  }

  /** How the two best-effort calls of a teardown go; the errors are only logged. */
  datatype Teardown = Teardown(stopOk: bool, removeOk: bool)

  /** How the creation of one replica goes. */
  datatype Fate =
    | CreateError
    | StartError(cleanedUp: bool)
    | Refused(running: bool, health: Health, teardown: Teardown) // waitForHealthy returned an error
    | Accepted(alive: bool)                                      // waitForHealthy returned nil

  /** The outcomes of everything deployService cannot control. */
  datatype Env = Env(
    preflight: bool,          // dependency conditions hold and the image resolves
    listed: bool,             // the containers can be listed
    inspected: nat -> bool,   // the container with this id can be inspected
    settles: nat -> bool,     // a starting container becomes healthy while waited for
    fates: nat -> Fate,       // the i-th replica created
    teardown: nat -> Teardown, // stopAndRemove of this id
    stamps: nat -> string)    // the clock suffix of the i-th name

  /** waitForHealthy says yes to a checked container only when Docker reports it healthy. */
  ghost predicate Honest(env: Env, svc: Service) {
    svc.hasHealthCheck ==> AllAlive(env)
  }

  ghost predicate AllAlive(env: Env) {
    forall i {:trigger env.fates(i)} :: env.fates(i).Accepted? ==> env.fates(i).alive
  }

  ghost predicate TeardownsSucceed(env: Env) {
    forall id {:trigger env.teardown(id)} :: env.teardown(id).removeOk
  }

  /** Every state passed through, and whether an error came back. */
  datatype Run = Run(trace: seq<Host>, ok: bool)

  function Final(h: Host, trace: seq<Host>): Host {
    if trace == [] then h else trace[|trace| - 1]
  }

  // ---------------------------------------------------------------------------------------------
  // Steps
  // ---------------------------------------------------------------------------------------------

  datatype Verdict = Keep | Replace | Settle | CannotTell

  /** What the partition loop decides about one existing container. */
  function Judge(c: Container, svc: Service, secretsChanged: bool, env: Env): Verdict {
    if secretsChanged then Replace
    else if c.config.image != svc.image then Replace
    else if !env.inspected(c.id) then CannotTell
    else if !c.running then Replace
    else if c.health == Unhealthy then Replace
    else if c.health == Starting then (if env.settles(c.id) then Settle else Replace)
    else Keep
  }

  datatype Partition = Partition(trace: seq<Host>, keep: seq<nat>, replace: seq<nat>, ok: bool)

  function Partitioned(h: Host, existing: seq<Container>, svc: Service, secretsChanged: bool, env: Env): Partition
    decreases |existing|
  {
    if existing == [] then Partition([], [], [], true)
    else
      var c := existing[0];
      match Judge(c, svc, secretsChanged, env)
      case CannotTell => Partition([], [], [], false)
      case Replace =>
        var p := Partitioned(h, existing[1..], svc, secretsChanged, env);
        p.(replace := [c.id] + p.replace)
      case Keep =>
        var p := Partitioned(h, existing[1..], svc, secretsChanged, env);
        p.(keep := [c.id] + p.keep)
      case Settle =>
        var settled := Report(h, c.id, true, Healthy);
        var p := Partitioned(settled, existing[1..], svc, secretsChanged, env);
        p.(trace := [settled] + p.trace, keep := [c.id] + p.keep)
  }

  datatype Plan = Plan(keep: seq<nat>, replace: seq<nat>)

  /** Scale-down: surplus healthy containers join the end of the removal list. */
  function Trimmed(keep: seq<nat>, replace: seq<nat>, replicas: nat): Plan {
    if |keep| > replicas then Plan(keep[..replicas], replace + keep[replicas..]) else Plan(keep, replace)
  }

  function TearDown(h: Host, id: nat, t: Teardown): seq<Host> {
    var stopped := if t.stopOk then [Stop(h, id)] else [];
    stopped + (if t.removeOk then [Remove(Final(h, stopped), id)] else [])
  }

  function TearDownAll(h: Host, ids: seq<nat>, env: Env): seq<Host>
    decreases |ids|
  {
    if ids == [] then []
    else
      var first := TearDown(h, ids[0], env.teardown(ids[0]));
      first + TearDownAll(Final(h, first), ids[1..], env)
  }

  /** Everything the creations of one rollout share. */
  datatype Job = Job(service: string, config: Config, hasHealthCheck: bool, keepCount: nat, needNew: nat)

  function InstanceName(job: Job, i: nat, env: Env): string {
    job.service + "_" + (Text.Decimal(job.keepCount + i) + "_" + env.stamps(i))
  }

  /** The states in which the i-th replica is created, started and judged, without any teardown. */
  function Launch(h: Host, job: Job, i: nat, running: bool, health: Health, env: Env): seq<Host> {
    var created := Create(h, InstanceName(job, i, env), job.config);
    var started := Report(created, h.nextId, true, Starting);
    [created, started, Report(started, h.nextId, running, health)]
  }

  function Judged(job: Job): Health {
    if job.hasHealthCheck then Healthy else NoCheck
  }

  /** The teardown that follows an accepted replica: the first container of the removal list, if any is left. */
  function Swap(up: Host, replace: seq<nat>, env: Env): seq<Host> {
    if replace == [] then [] else TearDown(up, replace[0], env.teardown(replace[0]))
  }

  function Rest(replace: seq<nat>): seq<nat> {
    if replace == [] then [] else replace[1..]
  }

  /** The states passed through when the i-th replica fails. */
  function FailedLaunch(h: Host, job: Job, i: nat, env: Env): seq<Host>
    requires !env.fates(i).Accepted?
  {
    match env.fates(i)
    case CreateError => []
    case StartError(cleanedUp) =>
      var created := Create(h, InstanceName(job, i, env), job.config);
      [created] + (if cleanedUp then [Remove(created, h.nextId)] else [])
    case Refused(running, health, teardown) =>
      var launch := Launch(h, job, i, running, health, env);
      launch + TearDown(Final(h, launch), h.nextId, teardown)
  }

  /** The rolling loop from iteration i on, then the removal of what is left of `replace`. */
  function Roll(h: Host, job: Job, i: nat, replace: seq<nat>, env: Env): Run
    requires i <= job.needNew
    decreases job.needNew - i
  {
    if i == job.needNew then Run(TearDownAll(h, replace, env), true)
    else if !env.fates(i).Accepted? then Run(FailedLaunch(h, job, i, env), false)
    else
      var launch := Launch(h, job, i, env.fates(i).alive, Judged(job), env);
      var swap := Swap(Final(h, launch), replace, env);
      var rest := Roll(Final(Final(h, launch), swap), job, i + 1, Rest(replace), env);
      Run(launch + swap + rest.trace, rest.ok)
  }

  function ConfigFor(name: string, svc: Service, stack: string, secrets: seq<SecretMerge.Secret>): Config {
    Config(svc.image, true, stack, name, SecretMerge.Merge(svc.environment, secrets), svc.rest)
  }

  datatype Request = Request(name: string, svc: Service, stack: string, secrets: seq<SecretMerge.Secret>,
                             secretsChanged: bool)

  predicate PortsCollide(svc: Service) {
    DesiredReplicas(svc) > 1 && Ports.AnyPublished(svc.ports)
  }

  function PlanFor(p: Partition, svc: Service): Plan {
    Trimmed(p.keep, p.replace, DesiredReplicas(svc))
  }

  function JobFor(req: Request, plan: Plan): Job
    requires |plan.keep| <= DesiredReplicas(req.svc)
  {
    Job(req.name, ConfigFor(req.name, req.svc, req.stack, req.secrets), req.svc.hasHealthCheck,
        |plan.keep|, DesiredReplicas(req.svc) - |plan.keep|)
  }

  /** deployService. */
  function DeployService(h: Host, req: Request, env: Env): Run {
    if PortsCollide(req.svc) || !env.preflight || !env.listed then Run([], false)
    else
      var p := Partitioned(h, Of(h.containers, req.name), req.svc, req.secretsChanged, env);
      if !p.ok then Run(p.trace, false)
      else
        var plan := PlanFor(p, req.svc);
        var roll := Roll(Final(h, p.trace), JobFor(req, plan), 0, plan.replace, env);
        Run(p.trace + roll.trace, roll.ok)
  }

  // ---------------------------------------------------------------------------------------------
  // Counting
  // ---------------------------------------------------------------------------------------------

  /** How many containers of the list serve, leaving out the given ids. */
  function ServingExcept(cs: seq<Container>, ids: seq<nat>): nat {
    if cs == [] then 0
    else (if cs[0].Serving() && cs[0].id !in ids then 1 else 0) + ServingExcept(cs[1..], ids)
  }

  function ServingIn(h: Host, service: string): nat {
    ServingExcept(Of(h.containers, service), [])
  }

  function CountIn(h: Host, service: string): nat {
    |Of(h.containers, service)|
  }

  lemma {:induction false} ServingBounds(cs: seq<Container>, ids: seq<nat>)
    ensures ServingExcept(cs, ids) <= ServingExcept(cs, []) <= |cs|
    ensures (forall c :: c in cs ==> c.Serving()) ==> ServingExcept(cs, []) == |cs|
  {
    if cs != [] {
      ServingBounds(cs[1..], ids);
      assert forall c :: c in cs[1..] ==> c in cs;
    }
  }

  lemma {:induction false} ServingFewerIds(cs: seq<Container>, more: seq<nat>, fewer: seq<nat>)
    requires forall id :: id in fewer ==> id in more
    ensures ServingExcept(cs, more) <= ServingExcept(cs, fewer)
  {
    if cs != [] {
      ServingFewerIds(cs[1..], more, fewer);
    }
  }

  /** Halting or dropping a container is the same, for the count, as leaving its id out. */
  lemma {:induction false} ServingAfterLoss(cs: seq<Container>, id: nat, ids: seq<nat>)
    ensures ServingExcept(Drop(cs, id), ids) == ServingExcept(cs, [id] + ids)
    ensures ServingExcept(Amend(cs, id, Halted), ids) == ServingExcept(cs, [id] + ids)
  {
    if cs != [] {
      ServingAfterLoss(cs[1..], id, ids);
      if cs[0].id == id {
        assert Drop(cs, id) == Drop(cs[1..], id);
      } else {
        assert Drop(cs, id)[1..] == Drop(cs[1..], id);
      }
    }
  }

  lemma {:induction false} ServingAfterGain(cs: seq<Container>, id: nat, ids: seq<nat>)
    ensures ServingExcept(Amend(cs, id, Reports(true, Healthy)), ids) >= ServingExcept(cs, ids)
  {
    if cs != [] {
      ServingAfterGain(cs[1..], id, ids);
    }
  }

  /** Leaving one more id out costs at most one. */
  lemma {:induction false} ServingLosesOne(cs: seq<Container>, id: nat, ids: seq<nat>)
    requires DistinctIds(cs)
    ensures ServingExcept(cs, [id] + ids) >= ServingExcept(cs, ids) - 1
    ensures !HasId(cs, id) ==> ServingExcept(cs, [id] + ids) == ServingExcept(cs, ids)
  {
    if cs != [] {
      if cs[0].id == id {
        assert !HasId(cs[1..], id);
        assert HasId(cs, id) by { assert cs[0] in cs; }
      } else if !HasId(cs, id) {
        assert !HasId(cs[1..], id);
      }
      ServingLosesOne(cs[1..], id, ids);
    }
  }

  lemma {:induction false} ServingLosesMany(cs: seq<Container>, ids: seq<nat>)
    requires DistinctIds(cs)
    ensures ServingExcept(cs, ids) >= ServingExcept(cs, []) - |ids|
    decreases |ids|
  {
    if ids != [] {
      ServingLosesMany(cs, ids[1..]);
      ServingLosesOne(cs, ids[0], ids[1..]);
      assert ids == [ids[0]] + ids[1..];
    }
  }
}

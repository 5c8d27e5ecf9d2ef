/** The question the control loop rests on: does the drift check agree with what the deployer does? */
module DriftAgreement {
  import opened Containers
  import opened Rollout
  import opened RolloutProofs
  import opened RolloutTheorems
  import opened Drift
  import Ports
  import Text

  // ---------------------------------------------------------------------------------------------
  // Labels against names
  // ---------------------------------------------------------------------------------------------

  /** Everything labelled for the service is also found under its name, as it is for containers Accelero names. */
  ghost predicate LabelsFollowNames(cs: seq<Container>, stack: string, service: string) {
    forall c :: c in cs && Labelled(c, stack, service) ==> MatchesServiceName(c.name, service)
  }

  /** Everything found under the service's name is labelled for it. */
  ghost predicate NamesFollowLabels(cs: seq<Container>, stack: string, service: string) {
    forall c :: c in Of(cs, service) ==> Labelled(c, stack, service)
  }

  lemma {:induction false} GroupedAgainstNamed(cs: seq<Container>, stack: string, service: string)
    requires LabelsFollowNames(cs, stack, service)
    ensures |Grouped(cs, stack, service)| <= |Of(cs, service)|
    ensures NamesFollowLabels(cs, stack, service) ==> Grouped(cs, stack, service) == Of(cs, service)
    ensures !NamesFollowLabels(cs, stack, service) ==> |Grouped(cs, stack, service)| < |Of(cs, service)|
  {
    if cs != [] {
      var c, rest := cs[0], cs[1..];
      assert cs == [c] + rest && c in cs;
      GroupedAgainstNamed(rest, stack, service);
      assert forall d :: d in Of(cs, service) <==>
               (d == c && MatchesServiceName(c.name, service)) || d in Of(rest, service);
      if forall d :: d in Of(cs, service) ==> Labelled(d, stack, service) {
        assert forall d :: d in Of(rest, service) ==> Labelled(d, stack, service);
      } else {
        var bad :| bad in Of(cs, service) && !Labelled(bad, stack, service);
        if bad in Of(rest, service) {
          assert |Grouped(rest, stack, service)| < |Of(rest, service)|;
        }
      }
    }
  }

  /** Whether labels follow names is settled by the containers a deploy does not touch. */
  lemma LabelsStillFollowNames(h: Host, w: Host, stack: string, service: string)
    requires Apart(h, w, service) && LabelsFollowNames(h.containers, stack, service)
    ensures LabelsFollowNames(w.containers, stack, service)
  {
    OfMembers(h.containers, service);
    OfMembers(w.containers, service);
    forall c | c in w.containers && Labelled(c, stack, service) ensures MatchesServiceName(c.name, service) {
      assert c in Others(h.containers, service) || MatchesServiceName(c.name, service);
    }
  }

  // ---------------------------------------------------------------------------------------------
  // After a successful deploy
  // ---------------------------------------------------------------------------------------------

  /** The check has nothing to say about the requested service. */
  predicate Silent(h: Host, req: Request, inspected: nat -> bool) {
    ServiceItems(req.name, req.svc, Grouped(h.containers, req.stack, req.name), inspected) == []
  }

  /** A successful deploy, its removals working and its accepted replicas alive. */
  ghost predicate DeploysWell(h: Host, req: Request, env: Env) {
    TeardownsSucceed(env) && AllAlive(env) && DeployService(h, req, env).ok
  }

  function Deployed(h: Host, req: Request, env: Env): Host {
    Final(h, DeployService(h, req, env).trace)
  }

  /** After one such deploy the check is silent exactly when everything it kept or created is labelled. */
  lemma SilentAfterDeployExactly(h: Host, req: Request, env: Env, inspected: nat -> bool)
    requires h.Valid() && DeploysWell(h, req, env) && LabelsFollowNames(h.containers, req.stack, req.name)
    ensures Silent(Deployed(h, req, env), req, inspected)
            <==> NamesFollowLabels(Deployed(h, req, env).containers, req.stack, req.name)
  {
    var end := Deployed(h, req, env);
    DeployConverges(h, req, env);
    LabelsStillFollowNames(h, end, req.stack, req.name);
    GroupedAgainstNamed(end.containers, req.stack, req.name);
    SilentExactly(req.name, req.svc, Grouped(end.containers, req.stack, req.name), inspected);
  }

  /** Every container that can stay carries the stack's labels for the service. */
  ghost predicate StayersLabelled(h: Host, req: Request) {
    var cs := Of(h.containers, req.name);
    forall i :: 0 <= i < |cs| && CanStay(cs, i, req.svc) ==> Labelled(cs[i], req.stack, req.name)
  }

  lemma LabelledEnough(h: Host, req: Request, env: Env)
    requires h.Valid() && req.name != "" && DeploysWell(h, req, env)
    requires req.secretsChanged || StayersLabelled(h, req)
    ensures NamesFollowLabels(Deployed(h, req, env).containers, req.stack, req.name)
  {
    var p := Partitioned(h, Of(h.containers, req.name), req.svc, req.secretsChanged, env);
    var plan := PlanFor(p, req.svc);
    var mid := Final(h, p.trace);
    var labelled := c => Labelled(c, req.stack, req.name);
    PlanHolds(h, req, env);
    forall c | c in Of(mid.containers, req.name) && c.id !in plan.replace ensures labelled(c) {
      if !req.secretsChanged {
        var i := PlanKeepsStayers(h, req, env, c);
      }
    }
    DeployLeaves(h, req, env, labelled);
  }

  /** The outcome in which exactly the i-th container is waited for with success keeps it to the end. */
  lemma StayerStays(h: Host, req: Request, i: nat)
    requires h.Valid() && !PortsCollide(req.svc) && !req.secretsChanged
    requires i < |Of(h.containers, req.name)| && CanStay(Of(h.containers, req.name), i, req.svc)
    ensures var c := Of(h.containers, req.name)[i];
            var end := Deployed(h, req, GoesWell(id => id == c.id));
            exists d :: d in Of(end.containers, req.name) && SameMake(c, d)
  {
    var s, cs := req.name, Of(h.containers, req.name);
    var env := GoesWell(id => id == cs[i].id);
    FreshId(h, s);
    DeployGoesWell(h, req, id => id == cs[i].id);
    KeptBehindFine(h, cs, req.svc, env, i);
    PartitionStates(h, s, cs, req.svc, false, env);
    PlanHolds(h, req, env);
    var p := Partitioned(h, cs, req.svc, false, env);
    var plan := PlanFor(p, req.svc);
    var mid := Final(h, p.trace);
    PartitionIds(h, cs, req.svc, false, env);
    NotReplaced(p, req.svc, FineCount(cs[..i], req.svc.image));
    var d := Of(mid.containers, s)[i];
    assert d in Of(mid.containers, s) && SameMake(cs[i], d);
    RollSpares(mid, JobFor(req, plan), 0, plan.replace, env, d);
    FinalConcat(h, p.trace, Roll(mid, JobFor(req, plan), 0, plan.replace, env).trace);
  }

  lemma NotReplaced(p: Partition, svc: Service, k: nat)
    requires k < |p.keep| && k < DesiredReplicas(svc) && Text.Distinct(p.keep + p.replace)
    ensures p.keep[k] !in PlanFor(p, svc).replace
  {
    var both, plan := p.keep + p.replace, PlanFor(p, svc);
    assert both[k] == p.keep[k];
    forall m | 0 <= m < |p.replace| ensures p.replace[m] != p.keep[k] {
      assert both[|p.keep| + m] == p.replace[m];
    }
    forall m | DesiredReplicas(svc) <= m < |p.keep| ensures p.keep[m] != p.keep[k] {
      assert both[m] == p.keep[m];
    }
  }

  /**
   The check is silent after every successful deploy exactly when the secrets had changed, so that everything is
   replaced, or every container that can stay is labelled (or the deploy never succeeds, for its ports). The
   deployer goes by names and the check by labels, so a kept container without them is reported for ever.
   */
  lemma SilentAfterEveryDeployExactly(h: Host, req: Request)
    requires h.Valid() && req.name != "" && LabelsFollowNames(h.containers, req.stack, req.name)
    ensures (forall env, inspected {:trigger Silent(Deployed(h, req, env), req, inspected)} ::
              DeploysWell(h, req, env) ==> Silent(Deployed(h, req, env), req, inspected))
            <==> PortsCollide(req.svc) || req.secretsChanged || StayersLabelled(h, req)
  {
    if PortsCollide(req.svc) || req.secretsChanged || StayersLabelled(h, req) {
      forall env, inspected | DeploysWell(h, req, env) ensures Silent(Deployed(h, req, env), req, inspected) {
        LabelledEnough(h, req, env);
        SilentAfterDeployExactly(h, req, env, inspected);
      }
    } else {
      var cs := Of(h.containers, req.name);
      var i :| 0 <= i < |cs| && CanStay(cs, i, req.svc) && !Labelled(cs[i], req.stack, req.name);
      var env := GoesWell(id => id == cs[i].id);
      DeployGoesWell(h, req, id => id == cs[i].id);
      StayerStays(h, req, i);
      SilentAfterDeployExactly(h, req, env, id => true);
      assert DeploysWell(h, req, env) && !Silent(Deployed(h, req, env), req, id => true);
    }
  }

  /** In particular it is silent whenever everything was replaced, as after a change of secrets. */
  lemma SilentAfterFullReplacement(h: Host, req: Request, env: Env, inspected: nat -> bool)
    requires h.Valid() && DeploysWell(h, req, env) && req.secretsChanged && req.name != ""
    requires LabelsFollowNames(h.containers, req.stack, req.name)
    ensures Silent(Deployed(h, req, env), req, inspected)
  {
    LabelledEnough(h, req, env);
    SilentAfterDeployExactly(h, req, env, inspected);
  }

  /** A host with one running container. */
  function OneContainer(name: string, image: string, managed: bool, stack: string, service: string): Host {
    Host([Container(0, name, Config(image, managed, stack, service, [], ""), true, NoCheck)], 1)
  }

  function OneReplica(image: string): Request {
    Request("web", Service(image, Unset, [], false, [], ""), "shop", [], false)
  }

  lemma OneContainerListed(name: string, image: string, managed: bool, stack: string, service: string)
    ensures var h := OneContainer(name, image, managed, stack, service);
            && h.Valid()
            && (MatchesServiceName(name, "web") ==> Of(h.containers, "web") == h.containers)
            && Grouped(h.containers, "shop", "web")
               == if Labelled(h.containers[0], "shop", "web") then h.containers else []
  {
    var cs := OneContainer(name, image, managed, stack, service).containers;
    assert cs[1..] == [];
  }

  /** An unlabelled "/web_1" on the right image: deploying succeeds and changes nothing, and the service is missing. */
  lemma UnlabelledReplicaDriftsForever(settles: nat -> bool, inspected: nat -> bool)
    ensures var h, req := OneContainer("/web_1", "nginx", false, "", ""), OneReplica("nginx");
            && DeployService(h, req, GoesWell(settles)) == Run([], true)
            && ServiceItems("web", req.svc, Grouped(h.containers, "shop", "web"), inspected) == [Item("web", Missing)]
  {
    var h, req := OneContainer("/web_1", "nginx", false, "", ""), OneReplica("nginx");
    OneContainerListed("/web_1", "nginx", false, "", "");
    WebMatches();
    NothingToReplace(h, Of(h.containers, "web"), req.svc, GoesWell(settles));
    assert !Ports.AnyPublished([]);
  }

  // ---------------------------------------------------------------------------------------------
  // Silence against a deploy with nothing to do
  // ---------------------------------------------------------------------------------------------

  /** Every container of the service names its image as the compose file does. */
  ghost predicate SameSpelling(cs: seq<Container>, image: string) {
    forall c :: c in cs ==> c.config.image == image
  }

  ghost predicate NoneStarting(cs: seq<Container>) {
    forall c :: c in cs ==> c.health != Starting
  }

  ghost predicate StartingSettle(cs: seq<Container>, settles: nat -> bool) {
    forall c :: c in cs && c.health == Starting ==> settles(c.id)
  }

  /** What the partition keeps, given what settles. */
  predicate Stays(c: Container, image: string, settles: nat -> bool) {
    Keepable(c, image) && (c.health == Starting ==> settles(c.id))
  }

  lemma {:induction false} PartitionOfInspected(h: Host, cs: seq<Container>, svc: Service, env: Env)
    requires forall id :: env.inspected(id)
    ensures var p := Partitioned(h, cs, svc, false, env);
            && p.ok && |p.keep| + |p.replace| == |cs|
            && (p.replace == [] <==> forall c :: c in cs ==> Stays(c, svc.image, env.settles))
            && (p.replace == [] ==> (p.trace == [] <==> NoneStarting(cs)))
    decreases |cs|
  {
    if cs != [] {
      assert cs[0] in cs && forall c :: c in cs <==> c == cs[0] || c in cs[1..];
      var settles := Judge(cs[0], svc, false, env).Settle?;
      PartitionOfInspected(if settles then Report(h, cs[0].id, true, Healthy) else h, cs[1..], svc, env);
    }
  }

  /** The plan has nothing to create and nothing to remove. */
  predicate NothingPlanned(p: Partition, svc: Service) {
    p.replace == [] && |p.keep| == DesiredReplicas(svc)
  }

  /** A service looked at in full, with unchanged secrets, whose labels and names agree. */
  ghost predicate Agreeing(h: Host, req: Request, env: Env) {
    && h.Valid() && !req.secretsChanged && !PortsCollide(req.svc)
    && env.preflight && env.listed && TeardownsSucceed(env) && (forall id :: env.inspected(id))
    && Grouped(h.containers, req.stack, req.name) == Of(h.containers, req.name)
  }

  /** Nothing is planned exactly when the check is silent, the images are spelled alike and what starts settles. */
  lemma NothingPlannedExactly(h: Host, req: Request, env: Env)
    requires Agreeing(h, req, env)
    ensures var cs := Of(h.containers, req.name);
            NothingPlanned(Partitioned(h, cs, req.svc, false, env), req.svc)
            <==> Silent(h, req, env.inspected) && SameSpelling(cs, req.svc.image) && StartingSettle(cs, env.settles)
  {
    var cs := Of(h.containers, req.name);
    SilentExactly(req.name, req.svc, cs, env.inspected);
    PartitionOfInspected(h, cs, req.svc, env);
    ImagesMatchIsEquivalence(req.svc.image, req.svc.image, req.svc.image);
  }

  /** A successful rolling loop with something planned creates a container or removes one. */
  lemma PlannedWorkShows(h: Host, req: Request, env: Env)
    requires Agreeing(h, req, env) && DeployService(h, req, env).ok
    requires !NothingPlanned(Partitioned(h, Of(h.containers, req.name), req.svc, false, env), req.svc)
    ensures exists w :: w in DeployService(h, req, env).trace
                        && (w.nextId > h.nextId || CountIn(w, req.name) != CountIn(h, req.name))
  {
    var s, cs := req.name, Of(h.containers, req.name);
    var p := Partitioned(h, cs, req.svc, false, env);
    PlanHolds(h, req, env);
    var plan, mid := PlanFor(p, req.svc), Final(h, p.trace);
    var job := JobFor(req, plan);
    var roll := Roll(mid, job, 0, plan.replace, env);
    if job.needNew > 0 {
      var w := Create(mid, InstanceName(job, 0, env), job.config);
      assert roll.trace[0] == w && w.nextId > h.nextId;
      assert w in roll.trace;
    } else {
      assert plan.replace != [];
      TearDownAllCount(mid, plan.replace, env, s);
      var w := Final(mid, roll.trace);
      assert CountIn(w, s) < CountIn(mid, s);
      assert w in roll.trace;
    }
  }

  /**
   Deploying again makes the host pass through no new state at all exactly when the check is silent, every image is
   spelled as declared and nothing is still starting. The check compares images up to ":latest" and registry
   prefixes and the deployer letter by letter, so silence alone does not mean there is nothing to do.
   */
  lemma SilentExactlyWhenDeployIsIdle(h: Host, req: Request, env: Env)
    requires Agreeing(h, req, env)
    ensures var cs := Of(h.containers, req.name);
            DeployService(h, req, env) == Run([], true)
            <==> Silent(h, req, env.inspected) && SameSpelling(cs, req.svc.image) && NoneStarting(cs)
  {
    var cs := Of(h.containers, req.name);
    NothingPlannedExactly(h, req, env);
    PartitionOfInspected(h, cs, req.svc, env);
    var p := Partitioned(h, cs, req.svc, false, env);
    if NothingPlanned(p, req.svc) {
      IdleRoll(h, req, env, p);
    } else if DeployService(h, req, env).ok {
      PlannedWorkShows(h, req, env);
    }
  }

  lemma IdleRoll(h: Host, req: Request, env: Env, p: Partition)
    requires Agreeing(h, req, env) && p == Partitioned(h, Of(h.containers, req.name), req.svc, false, env)
    requires p.ok && NothingPlanned(p, req.svc)
    ensures DeployService(h, req, env) == Run(p.trace, true)
  {
    assert p.trace + [] == p.trace;
  }

  /** No container is created, removed or replaced in any state; what is waited for may become healthy. */
  ghost predicate Untouched(h: Host, run: Run) {
    run.ok && forall w :: w in run.trace ==> w.nextId == h.nextId && SameShape(h.containers, w.containers)
  }

  lemma {:induction false} ShapeCounts(a: seq<Container>, b: seq<Container>, s: string)
    requires SameShape(a, b)
    ensures |Of(a, s)| == |Of(b, s)|
  {
    if a != [] {
      assert SameShape(a[1..], b[1..]);
      ShapeCounts(a[1..], b[1..], s);
    }
  }

  /** With containers still starting: deploying again touches nothing exactly when, besides, each of them settles. */
  lemma SilentExactlyWhenDeployTouchesNothing(h: Host, req: Request, env: Env)
    requires Agreeing(h, req, env)
    ensures var cs := Of(h.containers, req.name);
            Untouched(h, DeployService(h, req, env))
            <==> Silent(h, req, env.inspected) && SameSpelling(cs, req.svc.image) && StartingSettle(cs, env.settles)
  {
    var cs := Of(h.containers, req.name);
    NothingPlannedExactly(h, req, env);
    PartitionOfInspected(h, cs, req.svc, env);
    var p := Partitioned(h, cs, req.svc, false, env);
    if NothingPlanned(p, req.svc) {
      IdleRoll(h, req, env, p);
      PartitionKeepsShape(h, cs, req.svc, false, env);
    } else if Untouched(h, DeployService(h, req, env)) {
      PlannedWorkShows(h, req, env);
      forall w | w in DeployService(h, req, env).trace ensures CountIn(w, req.name) == CountIn(h, req.name) {
        ShapeCounts(h.containers, w.containers, req.name);
      }
    }
  }

  lemma {:induction false} NoDigest(s: string)
    requires '@' !in s
    ensures !ContainsText(s, "@sha256:")
  {
    if s != "" {
      assert s[0] in s && "@sha256:"[0] == '@' && (|s| >= 8 ==> s[..8][0] == s[0]);
      NoDigest(s[1..]);
    }
  }

  lemma TagIsDefault(img: string)
    requires '@' !in img && ':' !in img
    ensures ImagesMatch(img, img + [':'] + "latest")
  {
    var tagged := img + [':'] + "latest";
    assert tagged == img + ":latest";
    assert tagged[|img|] == ':' && forall c :: c in "latest" ==> c != '@';
    NoDigest(img);
    NoDigest(tagged);
    ImagesMatchIsEquivalence(img, tagged, tagged);
  }

  /** An image is running with its tag spelled out, the declaration leaves it off: silence, and a deploy replaces it. */
  lemma RespelledImageReplacedInSilence(img: string, settles: nat -> bool)
    requires '@' !in img && ':' !in img
    ensures var h, req := OneContainer("/web_1", img + [':'] + "latest", true, "shop", "web"), OneReplica(img);
            var end := Deployed(h, req, GoesWell(settles));
            && Silent(h, req, id => true) && DeploysWell(h, req, GoesWell(settles))
            && CountIn(end, "web") == 1 && SameSpelling(Of(end.containers, "web"), img)
            && !SameSpelling(Of(h.containers, "web"), img)
  {
    var h, req := OneContainer("/web_1", img + [':'] + "latest", true, "shop", "web"), OneReplica(img);
    OneContainerListed("/web_1", img + [':'] + "latest", true, "shop", "web");
    WebMatches();
    TagIsDefault(img);
    SilentExactly("web", req.svc, h.containers, id => true);
    DeployGoesWell(h, req, settles);
    DeployConverges(h, req, GoesWell(settles));
    assert h.containers[0] in Of(h.containers, "web");
  }

  lemma WebMatches()
    ensures MatchesServiceName("/web_1", "web")
  {
    assert "/web_1"[1..] == "web_1" && "web_1"[..3] == "web";
  }
}

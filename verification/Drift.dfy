/** The per-service drift check and its service filter. */
module Drift {
  import opened Containers
  import opened Rollout
  import Text

  // ---------------------------------------------------------------------------------------------
  // Image references
  // ---------------------------------------------------------------------------------------------

  function TrimPrefix(s: string, prefix: string): string {
    if Text.HasPrefix(s, prefix) then s[|prefix|..] else s
  }

  predicate ContainsText(s: string, part: string) {
    Text.HasPrefix(s, part) || (s != "" && ContainsText(s[1..], part))
  }

  /** Adds ":latest" to a reference with neither a digest nor any ':'. */
  function Normalise(img: string): string {
    if ContainsText(img, "@sha256:") then img
    else if ':' !in img then img + ":latest"
    else img
  }

  function StripRegistry(img: string): string {
    TrimPrefix(TrimPrefix(TrimPrefix(img, "docker.io/library/"), "docker.io/"), "index.docker.io/")
  }

  function Canonical(img: string): string {
    StripRegistry(Normalise(img))
  }

  /** imagesMatch, with its shortcuts. */
  predicate ImagesMatch(desired: string, actual: string) {
    || desired == actual
    || Normalise(desired) == Normalise(actual)
    || StripRegistry(Normalise(desired)) == StripRegistry(Normalise(actual))
  }

  /** The shortcuts change nothing: references match exactly when their canonical forms are equal. */
  lemma ImagesMatchIsEquivalence(a: string, b: string, c: string)
    ensures ImagesMatch(a, b) <==> Canonical(a) == Canonical(b)
    ensures ImagesMatch(a, a)
    ensures ImagesMatch(a, b) ==> ImagesMatch(b, a)
    ensures ImagesMatch(a, b) && ImagesMatch(b, c) ==> ImagesMatch(a, c)
  {
  }

  // ---------------------------------------------------------------------------------------------
  // Which containers the drift check looks at: labels, not names
  // ---------------------------------------------------------------------------------------------

  /** deriveServiceName: what precedes the first '_', for containers without a service label. */
  function DeriveServiceName(name: string): string {
    var n := TrimPrefix(name, "/");
    var i := Text.IndexOf(n, '_');
    if i > 0 then n[..i] else ""
  }

  function ServiceOf(c: Container): string {
    if c.config.service != "" then c.config.service else DeriveServiceName(c.name)
  }

  predicate Labelled(c: Container, stack: string, service: string) {
    c.config.managed && c.config.stack == stack && ServiceOf(c) == service
  }

  /** The containers listed for a stack and grouped under a service. */
  function Grouped(cs: seq<Container>, stack: string, service: string): seq<Container> {
    if cs == [] then []
    else (if Labelled(cs[0], stack, service) then [cs[0]] else []) + Grouped(cs[1..], stack, service)
  }

  // ---------------------------------------------------------------------------------------------
  // The items of one service
  // ---------------------------------------------------------------------------------------------

  datatype Kind = Missing | TooFew | Surplus | ImageMismatch(id: nat) | Stopped(id: nat) | UnhealthyReplica(id: nat)
                | NotDefined | SecretsChanged

  datatype Item = Item(service: string, kind: Kind)

  function ContainerItems(name: string, image: string, c: Container, inspected: nat -> bool): seq<Item> {
    (if !ImagesMatch(image, c.config.image) then [Item(name, ImageMismatch(c.id))] else [])
    + (if !c.running then [Item(name, Stopped(c.id))] else [])
    + (if inspected(c.id) && c.health == Unhealthy then [Item(name, UnhealthyReplica(c.id))] else [])
  }

  function AllContainerItems(name: string, image: string, cs: seq<Container>, inspected: nat -> bool): seq<Item> {
    if cs == [] then []
    else ContainerItems(name, image, cs[0], inspected) + AllContainerItems(name, image, cs[1..], inspected)
  }

  /** Step 3 of checkDrift for one desired service. */
  function ServiceItems(name: string, svc: Service, cs: seq<Container>, inspected: nat -> bool): seq<Item> {
    var desired := DesiredReplicas(svc);
    if cs == [] then [Item(name, Missing)]
    else
      (if |cs| < desired then [Item(name, TooFew)] else [])
      + (if |cs| > desired then [Item(name, Surplus)] else [])
      + AllContainerItems(name, svc.image, cs, inspected)
  }

  /** A container the drift check has nothing to say about. */
  predicate Quiet(c: Container, image: string, inspected: nat -> bool) {
    ImagesMatch(image, c.config.image) && c.running && (c.health != Unhealthy || !inspected(c.id))
  }

  lemma {:induction false} QuietContainers(name: string, image: string, cs: seq<Container>, inspected: nat -> bool)
    ensures AllContainerItems(name, image, cs, inspected) == [] <==> forall c :: c in cs ==> Quiet(c, image, inspected)
  {
    if cs != [] {
      QuietContainers(name, image, cs[1..], inspected);
      var items := AllContainerItems(name, image, cs, inspected);
      var first, rest := ContainerItems(name, image, cs[0], inspected),
        AllContainerItems(name, image, cs[1..], inspected);
      assert items == first + rest && |items| == |first| + |rest|;
      assert first == [] <==> Quiet(cs[0], image, inspected);
      assert cs[0] in cs && forall c :: c in cs <==> c == cs[0] || c in cs[1..];
    }
  }

  /** The service drifts unless it has exactly the declared replicas and each is quiet. */
  lemma SilentExactly(name: string, svc: Service, cs: seq<Container>, inspected: nat -> bool)
    ensures ServiceItems(name, svc, cs, inspected) == []
            <==> |cs| == DesiredReplicas(svc) && forall c :: c in cs ==> Quiet(c, svc.image, inspected)
  {
    QuietContainers(name, svc.image, cs, inspected);
    var items := ServiceItems(name, svc, cs, inspected);
    if cs != [] && |cs| != DesiredReplicas(svc) {
      assert items[0].kind == TooFew || items[0].kind == Surplus;
    } else if cs != [] {
      assert items == AllContainerItems(name, svc.image, cs, inspected);
    }
  }

  // ---------------------------------------------------------------------------------------------
  // The report
  // ---------------------------------------------------------------------------------------------

  /** What one check reads. Networks and volumes are not part of this model. */
  datatype Observation = Observation(stack: string, containers: seq<Container>, services: map<string, Service>,
                                     inspected: nat -> bool, secretsDiffer: bool)

  function ActualServices(cs: seq<Container>, stack: string): set<string> {
    set c | c in cs && c.config.managed && c.config.stack == stack && ServiceOf(c) != "" :: ServiceOf(c)
  }

  /** An item about a service of the compose file. */
  ghost predicate FromService(o: Observation, item: Item) {
    && item.service in o.services
    && item in ServiceItems(item.service, o.services[item.service],
                            Grouped(o.containers, o.stack, item.service), o.inspected)
  }

  /** An item about running containers the compose file knows no service for. */
  predicate FromOrphan(o: Observation, item: Item) {
    && item.kind == NotDefined
    && item.service in ActualServices(o.containers, o.stack) && item.service !in o.services
  }

  predicate FromSecrets(o: Observation, item: Item) {
    item == Item("(secrets)", SecretsChanged) && o.secretsDiffer
  }

  ghost predicate Reported(o: Observation, item: Item) {
    FromService(o, item) || FromOrphan(o, item) || FromSecrets(o, item)
  }

  lemma {:induction false} ContainerItemsNamed(name: string, image: string, cs: seq<Container>, inspected: nat -> bool)
    ensures forall item :: item in AllContainerItems(name, image, cs, inspected) ==> item.service == name
  {
    if cs != [] {
      ContainerItemsNamed(name, image, cs[1..], inspected);
    }
  }

  lemma ItemsNamed(name: string, svc: Service, cs: seq<Container>, inspected: nat -> bool)
    ensures forall item :: item in ServiceItems(name, svc, cs, inspected) ==> item.service == name
  {
    ContainerItemsNamed(name, svc.image, cs, inspected);
  }

  lemma {:induction false} GroupedMembers(cs: seq<Container>, stack: string, service: string)
    ensures forall c :: c in Grouped(cs, stack, service) <==> c in cs && Labelled(c, stack, service)
  {
    if cs != [] {
      GroupedMembers(cs[1..], stack, service);
      assert cs == [cs[0]] + cs[1..];
    }
  }

  /** An item that names a container of the list. */
  ghost predicate AboutSome(item: Item, cs: seq<Container>) {
    exists c :: c in cs && AboutContainer(item, c.id)
  }

  predicate AboutContainer(item: Item, id: nat) {
    item.kind == ImageMismatch(id) || item.kind == Stopped(id) || item.kind == UnhealthyReplica(id)
  }

  lemma ItemsOfOne(name: string, image: string, c: Container, inspected: nat -> bool)
    ensures Text.Distinct(ContainerItems(name, image, c, inspected))
    ensures forall item :: item in ContainerItems(name, image, c, inspected) ==> AboutContainer(item, c.id)
  {
    var mismatch := if !ImagesMatch(image, c.config.image) then [Item(name, ImageMismatch(c.id))] else [];
    var stopped := if !c.running then [Item(name, Stopped(c.id))] else [];
    var unhealthy := if inspected(c.id) && c.health == Unhealthy then [Item(name, UnhealthyReplica(c.id))] else [];
    Text.DistinctConcat(mismatch, stopped);
    Text.DistinctConcat(mismatch + stopped, unhealthy);
  }

  lemma AboutTail(item: Item, cs: seq<Container>)
    requires cs != [] && DistinctIds(cs) && AboutSome(item, cs[1..])
    ensures AboutSome(item, cs) && !AboutContainer(item, cs[0].id)
  {
    var c :| c in cs[1..] && AboutContainer(item, c.id);
    assert c in cs && c.id != cs[0].id;
  }

  lemma {:induction false} ContainerItemsDistinct(name: string, image: string, cs: seq<Container>,
                                                  inspected: nat -> bool)
    requires DistinctIds(cs)
    ensures Text.Distinct(AllContainerItems(name, image, cs, inspected))
    ensures forall item :: item in AllContainerItems(name, image, cs, inspected) ==> AboutSome(item, cs)
  {
    if cs != [] {
      var first, rest := ContainerItems(name, image, cs[0], inspected),
        AllContainerItems(name, image, cs[1..], inspected);
      ContainerItemsDistinct(name, image, cs[1..], inspected);
      ItemsOfOne(name, image, cs[0], inspected);
      forall item | item in rest ensures item !in first && AboutSome(item, cs) {
        AboutTail(item, cs);
      }
      Text.DistinctConcat(first, rest);
      forall item | item in first ensures AboutSome(item, cs) {
        assert cs[0] in cs && AboutContainer(item, cs[0].id);
      }
    }
  }

  lemma {:induction false} GroupedDistinct(cs: seq<Container>, stack: string, service: string)
    requires DistinctIds(cs)
    ensures DistinctIds(Grouped(cs, stack, service))
  {
    if cs != [] {
      GroupedDistinct(cs[1..], stack, service);
      GroupedMembers(cs[1..], stack, service);
      var rest := Grouped(cs[1..], stack, service);
      forall i | 0 <= i < |rest| ensures rest[i].id != cs[0].id {
        assert rest[i] in rest;
      }
    }
  }

  /** None of the kinds that are not about a service of the compose file. */
  predicate AllOfServices(items: seq<Item>) {
    forall item :: item in items ==> item.kind != NotDefined && item.kind != SecretsChanged
  }

  lemma AboutKinds(items: seq<Item>, cs: seq<Container>)
    requires forall item :: item in items ==> AboutSome(item, cs)
    ensures AllOfServices(items)
    ensures forall item :: item in items ==> item.kind != TooFew && item.kind != Surplus && item.kind != Missing
  {
  }

  /** The item about the number of containers, if that is wrong. */
  function CountItems(name: string, svc: Service, n: nat): seq<Item> {
    if n < DesiredReplicas(svc) then [Item(name, TooFew)]
    else if n > DesiredReplicas(svc) then [Item(name, Surplus)]
    else []
  }

  lemma CountItemsFirst(name: string, svc: Service, cs: seq<Container>, inspected: nat -> bool)
    requires cs != []
    ensures ServiceItems(name, svc, cs, inspected)
            == CountItems(name, svc, |cs|) + AllContainerItems(name, svc.image, cs, inspected)
  {
  }

  lemma ServiceItemsDistinct(name: string, svc: Service, cs: seq<Container>, inspected: nat -> bool)
    requires DistinctIds(cs)
    ensures Text.Distinct(ServiceItems(name, svc, cs, inspected))
    ensures AllOfServices(ServiceItems(name, svc, cs, inspected))
  {
    if cs != [] {
      var items := AllContainerItems(name, svc.image, cs, inspected);
      CountItemsFirst(name, svc, cs, inspected);
      ContainerItemsDistinct(name, svc.image, cs, inspected);
      AboutKinds(items, cs);
      Text.DistinctConcat(CountItems(name, svc, |cs|), items);
    }
  }

  method ServiceDrifts(o: Observation) returns (drifts: seq<Item>)
    ensures forall item :: item in drifts <==> FromService(o, item)
    ensures DistinctIds(o.containers) ==> Text.Distinct(drifts) && AllOfServices(drifts)
  {
    drifts := [];
    var remaining := o.services.Keys;
    while remaining != {}
      invariant remaining <= o.services.Keys
      invariant forall item :: item in drifts <==> item.service !in remaining && FromService(o, item)
      invariant DistinctIds(o.containers) ==> Text.Distinct(drifts) && AllOfServices(drifts)
      decreases remaining
    {
      var name :| name in remaining;
      if DistinctIds(o.containers) {
        GroupedDistinct(o.containers, o.stack, name);
        ServiceItemsDistinct(name, o.services[name], Grouped(o.containers, o.stack, name), o.inspected);
      }
      var items := ServiceItems(name, o.services[name], Grouped(o.containers, o.stack, name), o.inspected);
      ItemsNamed(name, o.services[name], Grouped(o.containers, o.stack, name), o.inspected);
      if DistinctIds(o.containers) {
        Text.DistinctConcat(drifts, items);
      }
      drifts := drifts + items;
      remaining := remaining - {name};
    }
  }

  method OrphanDrifts(o: Observation) returns (drifts: seq<Item>)
    ensures forall item :: item in drifts <==> FromOrphan(o, item)
    ensures Text.Distinct(drifts)
  {
    drifts := [];
    var remaining := ActualServices(o.containers, o.stack);
    while remaining != {}
      invariant remaining <= ActualServices(o.containers, o.stack)
      invariant forall item :: item in drifts <==> item.service !in remaining && FromOrphan(o, item)
      invariant Text.Distinct(drifts)
      decreases remaining
    {
      var name :| name in remaining;
      if name !in o.services {
        drifts := drifts + [Item(name, NotDefined)];
      }
      remaining := remaining - {name};
    }
  }

  /** The three kinds of items do not overlap. */
  lemma ReportDistinct(services: seq<Item>, orphans: seq<Item>, secrets: seq<Item>)
    requires Text.Distinct(services) && AllOfServices(services)
    requires Text.Distinct(orphans) && forall item :: item in orphans ==> item.kind == NotDefined
    requires |secrets| <= 1 && forall item :: item in secrets ==> item.kind == SecretsChanged
    ensures Text.Distinct(services + orphans + secrets)
  {
    Text.DistinctConcat(services, orphans);
    Text.DistinctConcat(services + orphans, secrets);
  }

  method SecretsDrifts(o: Observation) returns (drifts: seq<Item>)
    ensures |drifts| <= 1 && forall item :: item in drifts <==> FromSecrets(o, item)
  {
    drifts := if o.secretsDiffer then [Item("(secrets)", SecretsChanged)] else [];
  }

  /** checkDrift over services and secrets, whatever order the maps are walked in: each item once. */
  method CheckDrift(o: Observation) returns (drifts: seq<Item>, hasDrift: bool)
    ensures forall item :: item in drifts <==> Reported(o, item)
    ensures hasDrift <==> exists item :: Reported(o, item)
    ensures DistinctIds(o.containers) ==> Text.Distinct(drifts)
  {
    var services := ServiceDrifts(o);
    var orphans := OrphanDrifts(o);
    var secrets := SecretsDrifts(o);
    if DistinctIds(o.containers) {
      ReportDistinct(services, orphans, secrets);
    }
    drifts := services + orphans + secrets;
    hasDrift := |drifts| > 0;
    if hasDrift {
      assert drifts[0] in drifts;
    }
  }

  // ---------------------------------------------------------------------------------------------
  // Which items are reported, kind by kind
  // ---------------------------------------------------------------------------------------------

  /** The container counts for the service: it is managed, bears the stack's label, and belongs to the service. */
  ghost predicate Counts(o: Observation, c: Container, service: string) {
    c in o.containers && c.config.managed && c.config.stack == o.stack && ServiceOf(c) == service
  }

  /** A service's containers as a set. */
  ghost function Counted(o: Observation, service: string): set<Container> {
    set c | c in o.containers && Counts(o, c, service)
  }

  lemma GroupedAreCounted(o: Observation, service: string)
    ensures forall c :: c in Grouped(o.containers, o.stack, service) <==> c in Counted(o, service)
    ensures DistinctIds(o.containers) ==> |Grouped(o.containers, o.stack, service)| == |Counted(o, service)|
  {
    var grouped := Grouped(o.containers, o.stack, service);
    GroupedMembers(o.containers, o.stack, service);
    if DistinctIds(o.containers) {
      GroupedDistinct(o.containers, o.stack, service);
      Text.DistinctCardinality(grouped);
      assert Text.Elements(grouped) == Counted(o, service);
    }
  }

  /** What each kind of item says of a container. */
  predicate SaysOf(kind: Kind, c: Container, image: string, inspected: nat -> bool) {
    match kind
    case ImageMismatch(id) => id == c.id && !ImagesMatch(image, c.config.image)
    case Stopped(id) => id == c.id && !c.running
    case UnhealthyReplica(id) => id == c.id && inspected(c.id) && c.health == Unhealthy
    case _ => false
  }

  ghost predicate SaidOfSome(kind: Kind, cs: seq<Container>, image: string, inspected: nat -> bool) {
    exists c :: c in cs && SaysOf(kind, c, image, inspected)
  }

  lemma SaidOfHead(kind: Kind, cs: seq<Container>, image: string, inspected: nat -> bool)
    requires cs != []
    ensures SaidOfSome(kind, cs, image, inspected)
            <==> SaysOf(kind, cs[0], image, inspected) || SaidOfSome(kind, cs[1..], image, inspected)
  {
    assert forall c :: c in cs <==> c == cs[0] || c in cs[1..];
  }

  lemma HeadItemsExactly(name: string, image: string, c: Container, inspected: nat -> bool, item: Item)
    ensures item in ContainerItems(name, image, c, inspected)
            <==> item.service == name && SaysOf(item.kind, c, image, inspected)
  {
  }

  lemma {:induction false} ContainerItemsExactly(name: string, image: string, cs: seq<Container>,
                                                 inspected: nat -> bool, item: Item)
    ensures item in AllContainerItems(name, image, cs, inspected)
            <==> item.service == name && SaidOfSome(item.kind, cs, image, inspected)
  {
    if cs != [] {
      ContainerItemsExactly(name, image, cs[1..], inspected, item);
      HeadItemsExactly(name, image, cs[0], inspected, item);
      SaidOfHead(item.kind, cs, image, inspected);
    }
  }

  predicate AboutOneContainer(kind: Kind) {
    kind.ImageMismatch? || kind.Stopped? || kind.UnhealthyReplica?
  }

  lemma ContainerKindExactly(o: Observation, service: string, kind: Kind)
    requires AboutOneContainer(kind)
    ensures Reported(o, Item(service, kind)) <==>
              service in o.services
              && exists c :: Counts(o, c, service) && SaysOf(kind, c, o.services[service].image, o.inspected)
  {
    if service in o.services {
      GroupedAreCounted(o, service);
      ContainerItemsExactly(service, o.services[service].image, Grouped(o.containers, o.stack, service), o.inspected,
                            Item(service, kind));
    }
  }

  /** A mismatch is reported exactly of a counted container whose image does not match the declared one. */
  lemma MismatchExactly(o: Observation, service: string, id: nat)
    ensures Reported(o, Item(service, ImageMismatch(id))) <==>
              service in o.services
              && exists c :: Counts(o, c, service) && c.id == id
                             && !ImagesMatch(o.services[service].image, c.config.image)
  {
    ContainerKindExactly(o, service, ImageMismatch(id));
  }

  /** A stop exactly of a counted container that is not running. */
  lemma StoppedExactly(o: Observation, service: string, id: nat)
    ensures Reported(o, Item(service, Stopped(id))) <==>
              service in o.services && exists c :: Counts(o, c, service) && c.id == id && !c.running
  {
    ContainerKindExactly(o, service, Stopped(id));
  }

  /** Ill health exactly of a counted container that could be inspected and is unhealthy. */
  lemma UnhealthyExactly(o: Observation, service: string, id: nat)
    ensures Reported(o, Item(service, UnhealthyReplica(id))) <==>
              service in o.services
              && exists c :: Counts(o, c, service) && c.id == id && o.inspected(id) && c.health == Unhealthy
  {
    ContainerKindExactly(o, service, UnhealthyReplica(id));
  }

  /** And of its number of containers: none, too few, or too many. */
  lemma CountKindsExactly(o: Observation, service: string)
    requires DistinctIds(o.containers)
    ensures var n := |Counted(o, service)|;
            && (Reported(o, Item(service, Missing)) <==> service in o.services && n == 0)
            && (Reported(o, Item(service, TooFew)) <==>
                  service in o.services && 0 < n < DesiredReplicas(o.services[service]))
            && (Reported(o, Item(service, Surplus)) <==>
                  service in o.services && n > DesiredReplicas(o.services[service]))
  {
    GroupedAreCounted(o, service);
    if service in o.services {
      var svc, cs := o.services[service], Grouped(o.containers, o.stack, service);
      ContainerItemsExactly(service, svc.image, cs, o.inspected, Item(service, Missing));
      ContainerItemsExactly(service, svc.image, cs, o.inspected, Item(service, TooFew));
      ContainerItemsExactly(service, svc.image, cs, o.inspected, Item(service, Surplus));
    }
  }

  lemma RunsExactly(o: Observation, service: string)
    ensures service in ActualServices(o.containers, o.stack) <==> service != "" && exists c :: Counts(o, c, service)
  {
    if service in ActualServices(o.containers, o.stack) {
      var c :| c in o.containers && c.config.managed && c.config.stack == o.stack && ServiceOf(c) == service;
      assert Counts(o, c, service);
    }
    if service != "" && exists c :: Counts(o, c, service) {
      var c :| Counts(o, c, service);
      assert ServiceOf(c) in ActualServices(o.containers, o.stack);
    }
  }

  lemma NotOfServices(o: Observation, service: string, kind: Kind)
    requires kind == NotDefined || kind == SecretsChanged
    ensures !FromService(o, Item(service, kind))
  {
    if service in o.services {
      ContainerItemsExactly(service, o.services[service].image, Grouped(o.containers, o.stack, service), o.inspected,
                            Item(service, kind));
    }
  }

  /** The two kinds that are about no service of the compose file. */
  lemma OtherKindsExactly(o: Observation, service: string)
    ensures Reported(o, Item(service, NotDefined)) <==>
              service != "" && service !in o.services && exists c :: Counts(o, c, service)
    ensures Reported(o, Item(service, SecretsChanged)) <==> service == "(secrets)" && o.secretsDiffer
  {
    RunsExactly(o, service);
    NotOfServices(o, service, NotDefined);
    NotOfServices(o, service, SecretsChanged);
  }

  /** A container belongs to the service its label names; without one, to what precedes the first '_' of its name. */
  lemma ServiceOfExactly(c: Container, rest: string, s: string)
    ensures c.config.service != "" ==> ServiceOf(c) == c.config.service
    ensures c.config.service == "" && s != "" && '_' !in s && s[0] != '/' && c.name == ['/'] + (s + ['_'] + rest) ==>
              ServiceOf(c) == s
    ensures c.config.service == "" && '_' !in c.name ==> ServiceOf(c) == ""
  {
    if c.config.service == "" && s != "" && '_' !in s && c.name == ['/'] + (s + ['_'] + rest) {
      assert c.name[1..] == s + ['_'] + rest;
      Text.IndexOfAt(s, '_', rest);
      assert (s + ['_'] + rest)[..|s|] == s;
    }
  }

  // ---------------------------------------------------------------------------------------------
  // Which image references match
  // ---------------------------------------------------------------------------------------------

  /** The three prefixes that name Docker's own registry. */
  predicate HasRegistryPrefix(img: string) {
    || Text.HasPrefix(img, "docker.io/library/") || Text.HasPrefix(img, "docker.io/")
    || Text.HasPrefix(img, "index.docker.io/")
  }

  lemma PrefixComesOff(prefix: string, img: string)
    ensures TrimPrefix(prefix + img, prefix) == img
  {
    assert (prefix + img)[..|prefix|] == prefix && (prefix + img)[|prefix|..] == img;
  }

  /** A reference that carries a ':' is taken as it is. */
  lemma TaggedCanonical(img: string)
    requires ':' in img && !HasRegistryPrefix(img)
    ensures Canonical(img) == img
  {
  }

  lemma PrefixedCanonical(img: string)
    requires ':' in img && !HasRegistryPrefix(img)
    ensures Canonical("docker.io/library/" + img) == img
    ensures !Text.HasPrefix(img, "library/") ==> Canonical("docker.io/" + img) == img
    ensures Canonical("index.docker.io/" + img) == img
  {
    PrefixComesOff("docker.io/library/", img);
    if !Text.HasPrefix(img, "library/") {
      DockerPrefix(img);
    }
    IndexPrefix(img);
  }

  lemma DockerPrefix(img: string)
    requires ':' in img && !HasRegistryPrefix(img) && !Text.HasPrefix(img, "library/")
    ensures Canonical("docker.io/" + img) == img
  {
    var long := "docker.io/" + img;
    PrefixComesOff("docker.io/", img);
    assert "docker.io/library/"[10..] == "library/";
    assert |long| >= 18 ==> long[..18][10..] == img[..8];
  }

  lemma IndexPrefix(img: string)
    requires ':' in img && !HasRegistryPrefix(img)
    ensures Canonical("index.docker.io/" + img) == img
  {
    var long := "index.docker.io/" + img;
    PrefixComesOff("index.docker.io/", img);
    assert long[0] == 'i' && (|long| >= 10 ==> long[..10][0] == 'i') && (|long| >= 18 ==> long[..18][0] == 'i');
  }

  /**
   References with a tag and without a registry prefix match only when they are equal, and each of the three prefixes
   in front of one changes nothing.
   */
  lemma TaggedMatchExactly(a: string, b: string)
    requires ':' in a && ':' in b && !HasRegistryPrefix(a) && !HasRegistryPrefix(b)
    ensures ImagesMatch(a, b) <==> a == b
    ensures ImagesMatch("docker.io/library/" + a, b) <==> a == b
    ensures !Text.HasPrefix(a, "library/") ==> (ImagesMatch("docker.io/" + a, b) <==> a == b)
    ensures ImagesMatch("index.docker.io/" + a, b) <==> a == b
  {
    TaggedCanonical(a);
    TaggedCanonical(b);
    PrefixedCanonical(a);
    ImagesMatchIsEquivalence(a, b, b);
    ImagesMatchIsEquivalence("docker.io/library/" + a, b, b);
    ImagesMatchIsEquivalence("docker.io/" + a, b, b);
    ImagesMatchIsEquivalence("index.docker.io/" + a, b, b);
  }

  // ---------------------------------------------------------------------------------------------
  // The service filter
  // ---------------------------------------------------------------------------------------------

  /** The names a filter lists: comma-separated, trimmed, empty ones dropped. */
  function FilterNames(filter: string): set<string> {
    set part | part in Text.Split(filter, ',') && Text.TrimSpace(part) != "" :: Text.TrimSpace(part)
  }

  /** One of the first i parts of the filter names the service. */
  predicate NamedBefore(parts: seq<string>, i: nat, name: string)
    requires i <= |parts|
  {
    name != "" && exists k :: 0 <= k < i && Text.TrimSpace(parts[k]) == name
  }

  lemma NamedNext(parts: seq<string>, i: nat)
    requires i < |parts|
    ensures forall n :: NamedBefore(parts, i + 1, n) <==>
              NamedBefore(parts, i, n) || (n == Text.TrimSpace(parts[i]) && n != "")
  {
    forall n
      ensures NamedBefore(parts, i + 1, n)
              <==> NamedBefore(parts, i, n) || (n == Text.TrimSpace(parts[i]) && n != "")
    {
      if n == Text.TrimSpace(parts[i]) {
        assert 0 <= i < i + 1 && Text.TrimSpace(parts[i]) == n;
      }
    }
  }

  /** A filter of one name, whatever white space stands around it. */
  lemma FilterOfOne(before: string, name: string, behind: string)
    requires Text.AllSpace(before) && Text.AllSpace(behind) && name != "" && ',' !in name
    requires !Text.IsSpace(name[0]) && !Text.IsSpace(name[|name| - 1])
    ensures FilterNames(before + (name + behind)) == {name}
  {
    var filter := before + (name + behind);
    Text.TrimSpaceOf(before, name, behind);
    assert !Text.IsSpace(',') && ',' !in filter;
    assert Text.Split(filter, ',') == [filter];
    assert filter in [filter];
  }

  /** A comma adds the names behind it; a part of white space alone names nothing. */
  lemma FilterOfMore(first: string, rest: string)
    requires ',' !in first
    ensures FilterNames(first + [','] + rest) == FilterNames(first) + FilterNames(rest)
    ensures Text.AllSpace(first) ==> FilterNames(first) == {}
  {
    Text.SplitAt(first, ',', rest);
    assert Text.Split(first, ',') == [first];
    assert forall part :: part in [first] + Text.Split(rest, ',') <==> part == first || part in Text.Split(rest, ',');
    if Text.AllSpace(first) {
      Text.TrimSpaceOf(first, "", "");
      assert first + ("" + "") == first;
    }
  }

  /** filterServices. */
  method FilterServices(all: map<string, Service>, filter: string) returns (filtered: map<string, Service>)
    ensures filtered.Keys == CheckedServices(filter, all)
    ensures forall name :: name in filtered ==> filtered[name] == all[name]
  {
    if Text.TrimSpace(filter) == "" {
      return all;
    }
    var names: set<string> := {};
    var parts := Text.Split(filter, ',');
    for i := 0 to |parts|
      invariant forall n :: n in names <==> NamedBefore(parts, i, n)
    {
      var trimmed := Text.TrimSpace(parts[i]);
      NamedNext(parts, i);
      if trimmed != "" {
        names := names + {trimmed};
      }
    }
    assert names == FilterNames(filter);
    filtered := map name | name in all && name in names :: all[name];
  }

  method AllNames(services: map<string, Service>) returns (targets: seq<string>)
    ensures Text.Elements(targets) == services.Keys
  {
    targets := [];
    var remaining := services.Keys;
    while remaining != {}
      invariant forall n :: n in services.Keys <==> n in targets || n in remaining
      decreases remaining
    {
      var name :| name in remaining;
      targets := targets + [name];
      remaining := remaining - {name};
    }
  }

  /** resolveServiceFilter: what the deployer takes as its targets, in an arbitrary order when there is no filter. */
  method ResolveServiceFilter(filter: string, services: map<string, Service>) returns (targets: seq<string>)
    ensures Text.Elements(targets) == DeployTargets(filter, services)
  {
    if filter == "" {
      targets := AllNames(services);
      return;
    }
    targets := [];
    var parts := Text.Split(filter, ',');
    for i := 0 to |parts|
      invariant forall n :: n in targets <==> n in services && NamedBefore(parts, i, n)
    {
      var name := Text.TrimSpace(parts[i]);
      NamedNext(parts, i);
      if name != "" && name in services {
        targets := targets + [name];
      }
    }
    assert forall n :: n in FilterNames(filter) <==> NamedBefore(parts, |parts|, n);
  }

  function DeployTargets(filter: string, services: map<string, Service>): set<string> {
    if filter == "" then services.Keys else FilterNames(filter) * services.Keys
  }

  function CheckedServices(filter: string, services: map<string, Service>): set<string> {
    if Text.TrimSpace(filter) == "" then services.Keys else FilterNames(filter) * services.Keys
  }

  lemma {:induction false} TrimmedAway(s: string)
    requires Text.TrimSpace(s) == ""
    ensures forall c :: c in s ==> Text.IsSpace(c)
  {
    if s != "" {
      if Text.IsSpace(s[0]) {
        TrimmedAway(s[1..]);
      } else {
        RightTrimKeeps(s);
      }
    }
  }

  lemma {:induction false} RightTrimKeeps(s: string)
    requires s != "" && !Text.IsSpace(s[0])
    ensures Text.TrimRight(s) != ""
    decreases |s|
  {
    if Text.IsSpace(s[|s| - 1]) {
      RightTrimKeeps(s[..|s| - 1]);
    }
  }

  /**
   The filter the deployer applies and the one the drift check applies select the same services, except for a
   filter of white space alone: the check then covers every service while the deployer finds none to deploy.
   */
  lemma FiltersAgreeExactly(filter: string, services: map<string, Service>)
    ensures DeployTargets(filter, services) == CheckedServices(filter, services)
            <==> filter == "" || Text.TrimSpace(filter) != "" || services == map[]
  {
    if filter != "" && Text.TrimSpace(filter) == "" {
      TrimmedAway(filter);
      assert ',' !in filter;
      assert Text.Split(filter, ',') == [filter];
      assert FilterNames(filter) == {};
      assert services.Keys == {} <==> services == map[];
    }
  }
}

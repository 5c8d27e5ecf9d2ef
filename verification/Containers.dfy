/**
 The Docker host as the deployer sees it: a list of containers, newest first, changed one call at a time.
 Containers are found by name, so this module also says exactly when two services can claim the same one.
 */
module Containers {
  import Text

  datatype Health = NoCheck | Starting | Healthy | Unhealthy

  /** What a container was created with. `rest` stands for every field the rollout only copies. */
  datatype Config = Config(image: string, managed: bool, stack: string, service: string, env: seq<string>, rest: string)

  datatype Container = Container(id: nat, name: string, config: Config, running: bool, health: Health) {
    /** Running, and healthy as far as anyone can tell. */
    predicate Serving() {
      running && (health == NoCheck || health == Healthy)
    }
  }

  datatype Host = Host(containers: seq<Container>, nextId: nat) {
    ghost predicate Valid() {
      && (forall c :: c in containers ==> c.id < nextId)
      && DistinctIds(containers)
    }
  }

  ghost predicate DistinctIds(cs: seq<Container>) {
    forall i, j :: 0 <= i < j < |cs| ==> cs[i].id != cs[j].id
  }

  ghost predicate HasId(cs: seq<Container>, id: nat) {
    exists c :: c in cs && c.id == id
  }

  // ---------------------------------------------------------------------------------------------
  // Docker calls
  // ---------------------------------------------------------------------------------------------

  function Drop(cs: seq<Container>, id: nat): seq<Container> {
    if cs == [] then []
    else (if cs[0].id == id then [] else [cs[0]]) + Drop(cs[1..], id)
  }

  /** What happens to a container's state without anything else about it changing. */
  datatype Change = Halted | Reports(running: bool, health: Health)

  function Changed(c: Container, change: Change): Container {
    match change
    case Halted => c.(running := false)
    case Reports(running, health) => c.(running := running, health := health)
  }

  function Amend(cs: seq<Container>, id: nat, change: Change): seq<Container> {
    if cs == [] then []
    else [if cs[0].id == id then Changed(cs[0], change) else cs[0]] + Amend(cs[1..], id, change)
  }

  /** ContainerCreate: Docker reports the given name with a leading '/'. */
  function Create(h: Host, name: string, config: Config): Host {
    Host([Container(h.nextId, "/" + name, config, false, Starting)] + h.containers, h.nextId + 1)
  }

  /** ContainerStart, or any later change of a container's reported state. */
  function Report(h: Host, id: nat, running: bool, health: Health): Host {
    h.(containers := Amend(h.containers, id, Reports(running, health)))
  }

  function Stop(h: Host, id: nat): Host {
    h.(containers := Amend(h.containers, id, Halted))
  }

  function Remove(h: Host, id: nat): Host {
    h.(containers := Drop(h.containers, id))
  }

  // ---------------------------------------------------------------------------------------------
  // Containers of a service
  // ---------------------------------------------------------------------------------------------

  /** matchesServiceName: the name, without a leading '/', is the service name alone or followed by '_'. */
  predicate MatchesServiceName(containerName: string, service: string) {
    var name := if |containerName| > 0 && containerName[0] == '/' then containerName[1..] else containerName;
    && |name| >= |service|
    && name[..|service|] == service
    && (|name| == |service| || name[|service|] == '_')
  }

  /** getServiceContainers, in listing order. */
  function Of(cs: seq<Container>, service: string): seq<Container> {
    if cs == [] then []
    else (if MatchesServiceName(cs[0].name, service) then [cs[0]] else []) + Of(cs[1..], service)
  }

  /** The containers no name-match claims for the service. */
  function Others(cs: seq<Container>, service: string): seq<Container> {
    if cs == [] then []
    else (if MatchesServiceName(cs[0].name, service) then [] else [cs[0]]) + Others(cs[1..], service)
  }

  /** `longer` is `shorter` followed by '_' and anything. */
  predicate Extends(shorter: string, longer: string) {
    |shorter| < |longer| && longer[..|shorter|] == shorter && longer[|shorter|] == '_'
  }

  predicate Clash(a: string, b: string) {
    a == b || Extends(a, b) || Extends(b, a)
  }

  /** Two services can claim one container exactly when the names are equal or one extends the other with '_'. */
  lemma SharedNameExactlyWhenClash(a: string, b: string)
    ensures (exists name :: MatchesServiceName(name, a) && MatchesServiceName(name, b)) <==> Clash(a, b)
  {
    if name :| MatchesServiceName(name, a) && MatchesServiceName(name, b) {
      var n := if |name| > 0 && name[0] == '/' then name[1..] else name;
      if |a| < |b| {
        assert b[..|a|] == n[..|b|][..|a|] == n[..|a|];
        assert b[|a|] == n[|a|];
      } else if |b| < |a| {
        assert a[..|b|] == n[..|a|][..|b|] == n[..|b|];
        assert a[|b|] == n[|b|];
      }
    }
    if Clash(a, b) {
      var longer := if |a| < |b| then b else a;
      assert ("/" + longer)[1..] == longer;
      assert MatchesServiceName("/" + longer, a) && MatchesServiceName("/" + longer, b);
    }
  }

  /**
   A name matches a service exactly when, without one leading '/', it is the service's name, alone or followed by '_'
   and anything.
   */
  lemma MatchesExactly(name: string, service: string)
    ensures MatchesServiceName("/" + name, service)
            <==> name == service || exists suffix :: name == service + "_" + suffix
    ensures name == "" || name[0] != '/' ==>
              (MatchesServiceName(name, service) <==> MatchesServiceName("/" + name, service))
  {
    assert ("/" + name)[1..] == name;
    if MatchesServiceName("/" + name, service) && name != service {
      assert name == service + "_" + name[|service| + 1..];
    }
    if suffix :| name == service + "_" + suffix {
      assert name[..|service|] == service;
    }
  }

  /** Any name built as "<service>_<suffix>" is found again under its service. */
  lemma InstanceNameMatches(service: string, suffix: string)
    ensures MatchesServiceName("/" + (service + "_" + suffix), service)
  {
    var name := service + "_" + suffix;
    assert ("/" + name)[1..] == name;
    assert name[..|service|] == service;
  }

  // ---------------------------------------------------------------------------------------------
  // How the calls act on a service's list, and that they leave the other containers alone
  // ---------------------------------------------------------------------------------------------

  lemma {:induction false} OfMembers(cs: seq<Container>, s: string)
    ensures forall c :: c in Of(cs, s) <==> c in cs && MatchesServiceName(c.name, s)
    ensures forall c :: c in Others(cs, s) <==> c in cs && !MatchesServiceName(c.name, s)
    ensures DistinctIds(cs) ==> DistinctIds(Of(cs, s)) && DistinctIds(Others(cs, s))
  {
    if cs != [] {
      OfMembers(cs[1..], s);
      var claimed := MatchesServiceName(cs[0].name, s);
      SplitMembers(cs, if claimed then [cs[0]] else [], Of(cs[1..], s));
      SplitMembers(cs, if claimed then [] else [cs[0]], Others(cs[1..], s));
    }
  }

  /** Putting back, or leaving out, the head before some of the tail. */
  lemma SplitMembers(cs: seq<Container>, head: seq<Container>, tail: seq<Container>)
    requires cs != [] && (head == [] || head == [cs[0]]) && forall c :: c in tail ==> c in cs[1..]
    ensures forall c :: c in head + tail <==> c in head || c in tail
    ensures DistinctIds(cs) && DistinctIds(tail) ==> DistinctIds(head + tail)
  {
    if DistinctIds(cs) && head != [] {
      forall i | 0 <= i < |tail| ensures tail[i].id != cs[0].id {
        assert tail[i] in cs[1..];
      }
    }
  }

  lemma {:induction false} DropAbsent(cs: seq<Container>, id: nat)
    requires !HasId(cs, id)
    ensures Drop(cs, id) == cs
  {
    if cs != [] {
      assert cs[0] in cs && cs[0].id != id;
      assert !HasId(cs[1..], id);
      DropAbsent(cs[1..], id);
    }
  }

  lemma {:induction false} DropMembers(cs: seq<Container>, id: nat)
    ensures forall c :: c in Drop(cs, id) <==> c in cs && c.id != id
    ensures DistinctIds(cs) ==> DistinctIds(Drop(cs, id))
    ensures DistinctIds(cs) ==> |Drop(cs, id)| == |cs| - (if HasId(cs, id) then 1 else 0)
  {
    if cs != [] {
      DropMembers(cs[1..], id);
      assert cs == [cs[0]] + cs[1..];
      if DistinctIds(cs) && cs[0].id == id {
        assert !HasId(cs[1..], id);
        assert HasId(cs, id);
      } else if HasId(cs, id) {
        var c :| c in cs && c.id == id;
        assert cs[0].id != id ==> c in cs[1..];
      } else {
        assert cs[0] in cs;
        assert !HasId(cs[1..], id);
      }
    }
  }

  lemma {:induction false} DropOf(cs: seq<Container>, id: nat, s: string)
    ensures Of(Drop(cs, id), s) == Drop(Of(cs, s), id)
    ensures (forall c :: c in cs && c.id == id ==> MatchesServiceName(c.name, s))
            ==> Others(Drop(cs, id), s) == Others(cs, s)
  {
    if cs != [] {
      DropOf(cs[1..], id, s);
      var head := if cs[0].id == id then [] else [cs[0]];
      assert Drop(cs, id) == head + Drop(cs[1..], id);
      OfConcat(head, Drop(cs[1..], id), s);
      OthersConcat(head, Drop(cs[1..], id), s);
      DropConcat(if MatchesServiceName(cs[0].name, s) then [cs[0]] else [], Of(cs[1..], s), id);
    }
  }

  lemma {:induction false} OfConcat(a: seq<Container>, b: seq<Container>, s: string)
    ensures Of(a + b, s) == Of(a, s) + Of(b, s)
  {
    if a == [] {
      assert a + b == b;
    } else {
      assert (a + b)[1..] == a[1..] + b;
      OfConcat(a[1..], b, s);
      Text.Associate(if MatchesServiceName(a[0].name, s) then [a[0]] else [], Of(a[1..], s), Of(b, s));
    }
  }

  lemma {:induction false} OthersConcat(a: seq<Container>, b: seq<Container>, s: string)
    ensures Others(a + b, s) == Others(a, s) + Others(b, s)
  {
    if a == [] {
      assert a + b == b;
    } else {
      assert (a + b)[1..] == a[1..] + b;
      OthersConcat(a[1..], b, s);
      Text.Associate(if MatchesServiceName(a[0].name, s) then [] else [a[0]], Others(a[1..], s), Others(b, s));
    }
  }

  lemma {:induction false} DropConcat(a: seq<Container>, b: seq<Container>, id: nat)
    ensures Drop(a + b, id) == Drop(a, id) + Drop(b, id)
  {
    if a == [] {
      assert a + b == b;
    } else {
      assert (a + b)[1..] == a[1..] + b;
      DropConcat(a[1..], b, id);
    }
  }

  /** Changing the state of a container moves nothing and renames nothing. */
  ghost predicate SameShape(a: seq<Container>, b: seq<Container>) {
    |a| == |b| && forall i :: 0 <= i < |a| ==>
                    a[i].id == b[i].id && a[i].name == b[i].name && a[i].config == b[i].config
  }

  lemma {:induction false} AmendEffect(cs: seq<Container>, id: nat, change: Change)
    ensures var out := Amend(cs, id, change);
            && SameShape(cs, out)
            && (forall i :: 0 <= i < |cs| ==> out[i] == if cs[i].id == id then Changed(cs[i], change) else cs[i])
  {
    if cs != [] {
      AmendEffect(cs[1..], id, change);
    }
  }

  lemma {:induction false} AmendOf(cs: seq<Container>, id: nat, change: Change, s: string)
    ensures Of(Amend(cs, id, change), s) == Amend(Of(cs, s), id, change)
    ensures (forall c :: c in cs && c.id == id ==> MatchesServiceName(c.name, s)) ==>
              Others(Amend(cs, id, change), s) == Others(cs, s)
  {
    if cs != [] {
      AmendOf(cs[1..], id, change, s);
      var head := if cs[0].id == id then Changed(cs[0], change) else cs[0];
      OfConcat([head], Amend(cs[1..], id, change), s);
      OthersConcat([head], Amend(cs[1..], id, change), s);
      assert [head][1..] == [];
      if MatchesServiceName(cs[0].name, s) {
        assert Of(cs, s)[1..] == Of(cs[1..], s);
      } else {
        assert Of(cs, s) == Of(cs[1..], s);
      }
    }
  }

  /** A service whose name does not clash sees only what the other service's name-match leaves over. */
  lemma {:induction false} OfFromOthers(cs: seq<Container>, s: string, t: string)
    requires !Clash(s, t)
    ensures Of(cs, t) == Of(Others(cs, s), t)
  {
    if cs != [] {
      OfFromOthers(cs[1..], s, t);
      SharedNameExactlyWhenClash(s, t);
      OfConcat(if MatchesServiceName(cs[0].name, s) then [] else [cs[0]], Others(cs[1..], s), t);
    }
  }
}

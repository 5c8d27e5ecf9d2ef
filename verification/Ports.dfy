/**
 Port strings: the long form printed as "[host_ip:]host_port:container_port[/proto]", parsed back by the
 container helper, and the guard that rejects several replicas behind one fixed host port.
 */
module Ports {
  import opened Text

  // ---------------------------------------------------------------------------------------------
  // Parsing
  // ---------------------------------------------------------------------------------------------

  datatype PortSpec = PortSpec(hostIP: string, hostPort: string, containerPort: string, proto: string)

  const MAX_INT64 := 0x7FFF_FFFF_FFFF_FFFF

  /** strconv.Atoi succeeds: an optional sign, at least one digit, and a value that fits 64 bits. */
  predicate IsInteger(s: string) {
    var negative := s != "" && s[0] == '-';
    var digits := if s != "" && (s[0] == '-' || s[0] == '+') then s[1..] else s;
    && digits != ""
    && AllDigits(digits)
    && DigitsValue(digits) <= if negative then MAX_INT64 + 1 else MAX_INT64
  }

  /** The tail after the last '/' is taken as a protocol only if it looks like one. */
  predicate LooksLikeProtocol(s: string) {
    !IsInteger(s) && s != "" && ':' !in s && '[' !in s && ']' !in s
  }

  datatype Halves = Halves(address: string, proto: string)

  function SplitProtocol(s: string): Halves {
    var i := LastIndexOf(s, '/');
    if i >= 0 && LooksLikeProtocol(s[i + 1..]) then Halves(s[..i], s[i + 1..]) else Halves(s, "tcp")
  }

  function FromParts(parts: seq<string>, proto: string): Option<PortSpec>
    requires |parts| > 0
  {
    if |parts| > 3 || parts[|parts| - 1] == "" then None
    else if |parts| == 1 then Some(PortSpec("", "", parts[0], proto))
    else if |parts| == 2 then Some(PortSpec("", parts[0], parts[1], proto))
    else Some(PortSpec(parts[0], parts[1], parts[2], proto))
  }

  /** parsePortSpec; None stands for its two errors. */
  function ParsePortSpec(s: string): Option<PortSpec> {
    var halves := SplitProtocol(s);
    FromParts(Split(halves.address, ':'), halves.proto)
  }

  // ---------------------------------------------------------------------------------------------
  // Printing the long form
  // ---------------------------------------------------------------------------------------------

  datatype Published = Unset | Number(n: int) | Words(s: string) | OtherType

  datatype LongPort = LongPort(target: int, published: Published, protocol: string, hostIP: string)

  /** fmt's %d. */
  function Printed(n: int): (s: string)
    ensures |s| > 0
  {
    if n < 0 then "-" + Decimal(-n) else Decimal(n)
  }

  function HostPortText(p: Published): string {
    match p
    case Number(n) => if n != 0 then Printed(n) else ""
    case Words(s) => s
    case Unset => ""
    case OtherType => ""
  }

  function PortPart(l: LongPort): string {
    if l.published.Unset? then Printed(l.target) else HostPortText(l.published) + [':'] + Printed(l.target)
  }

  function Address(l: LongPort): string {
    if l.hostIP != "" then l.hostIP + [':'] + PortPart(l) else PortPart(l)
  }

  /** longPort.toShortForm; None stands for its errors. */
  function ToShortForm(l: LongPort): Option<string> {
    if l.target == 0 || l.published.OtherType? || (l.hostIP != "" && l.published.Unset?) then None
    else if l.protocol == "" then Some(Address(l))
    else Some(Address(l) + ['/'] + l.protocol)
  }

  /** What the long form says, as a parsed spec. */
  function Meaning(l: LongPort): PortSpec {
    PortSpec(l.hostIP, HostPortText(l.published), Printed(l.target), if l.protocol == "" then "tcp" else l.protocol)
  }

  /** The long form is an error exactly without a target, with a published value of another type, or with an address
   but nothing published; otherwise it is the fields in order, each with its separator. */
  lemma ShortFormExactly(l: LongPort)
    ensures ToShortForm(l).None? <==>
              l.target == 0 || l.published.OtherType? || (l.hostIP != "" && l.published.Unset?)
    ensures ToShortForm(l).Some? ==>
              ToShortForm(l).value
              == (if l.hostIP == "" then "" else l.hostIP + [':'])
                 + ((match l.published
                     case Unset => ""
                     case Number(n) => if n == 0 then [':'] else Printed(n) + [':']
                     case Words(s) => s + [':']
                     case OtherType => "")
                    + Printed(l.target))
                 + (if l.protocol == "" then "" else ['/'] + l.protocol)
  {
    var port := PortPart(l);
    var text := if l.hostIP == "" then "" else l.hostIP + [':'];
    assert l.published.Unset? ==> "" + Printed(l.target) == port;
    assert Address(l) == text + port;
    Associate(Address(l), ['/'], l.protocol);
    assert Address(l) + "" == Address(l);
  }

  predicate WellFormed(l: LongPort) {
    && ':' !in l.hostIP
    && ':' !in HostPortText(l.published)
    && (l.protocol == "" || (LooksLikeProtocol(l.protocol) && '/' !in l.protocol))
  }

  lemma PrintedPlain(n: int)
    ensures ':' !in Printed(n) && '/' !in Printed(n)
  {
    var digits := Decimal(if n < 0 then -n else n);
    assert forall c :: c in digits ==> IsDigit(c);
  }

  /** The protocol suffix comes off exactly when the protocol is absent or well-formed. */
  lemma ProtocolComesOff(l: LongPort)
    requires ToShortForm(l).Some?
    requires l.protocol == "" || (LooksLikeProtocol(l.protocol) && '/' !in l.protocol)
    ensures SplitProtocol(ToShortForm(l).value) == Halves(Address(l), if l.protocol == "" then "tcp" else l.protocol)
  {
    if l.protocol == "" {
      var i := LastIndexOf(Address(l), '/');
      if i >= 0 {
        AddressTailHasColon(l, i);
      }
    } else {
      SplitProtocolAt(Address(l), l.protocol);
    }
  }

  lemma SplitProtocolAt(a: string, proto: string)
    requires LooksLikeProtocol(proto) && '/' !in proto
    ensures SplitProtocol(a + ['/'] + proto) == Halves(a, proto)
  {
    LastIndexOfAt(a, '/', proto);
    var s := a + ['/'] + proto;
    assert s[..|a|] == a && s[|a| + 1..] == proto;
  }

  /** In `a:b` with no '/' in b, a ':' follows every '/'. */
  lemma ColonFollows(a: string, b: string, i: nat)
    requires '/' !in b
    requires i < |a + [':'] + b| && (a + [':'] + b)[i] == '/'
    ensures ':' in (a + [':'] + b)[i + 1..]
  {
    var s := a + [':'] + b;
    assert forall k :: |a| < k < |s| ==> s[k] == b[k - |a| - 1] && s[k] in b;
    assert s[|a|] == ':' && i < |a|;
    assert s[i + 1..][|a| - (i + 1)] == ':';
  }

  /** A '/' inside the address stands before a ':' of the address. */
  lemma AddressTailHasColon(l: LongPort, i: nat)
    requires ToShortForm(l).Some?
    requires i < |Address(l)| && Address(l)[i] == '/'
    ensures ':' in Address(l)[i + 1..]
  {
    PrintedPlain(l.target);
    assert l.published.Unset? ==> Address(l) == Printed(l.target);
    if l.published.Unset? {
    } else if l.hostIP == "" {
      ColonFollows(HostPortText(l.published), Printed(l.target), i);
    } else {
      var a := l.hostIP + [':'] + HostPortText(l.published);
      assert Address(l) == a + [':'] + Printed(l.target);
      ColonFollows(a, Printed(l.target), i);
    }
  }

  function Fields(l: LongPort): seq<string> {
    if l.published.Unset? then [Printed(l.target)]
    else if l.hostIP == "" then [HostPortText(l.published), Printed(l.target)]
    else [l.hostIP, HostPortText(l.published), Printed(l.target)]
  }

  lemma PortPartSplits(l: LongPort)
    requires ':' !in HostPortText(l.published)
    ensures Split(PortPart(l), ':') ==
            if l.published.Unset? then [Printed(l.target)] else [HostPortText(l.published), Printed(l.target)]
  {
    PrintedPlain(l.target);
    assert Split(Printed(l.target), ':') == [Printed(l.target)];
    if !l.published.Unset? {
      SplitAt(HostPortText(l.published), ':', Printed(l.target));
    }
  }

  /** Splitting the printed address gives the fields back when none of them holds a ':'. */
  lemma AddressSplits(l: LongPort)
    requires ToShortForm(l).Some? && ':' !in l.hostIP && ':' !in HostPortText(l.published)
    ensures Split(Address(l), ':') == Fields(l)
  {
    PortPartSplits(l);
    if l.hostIP != "" {
      SplitAt(l.hostIP, ':', PortPart(l));
    }
  }

  lemma TcpLooksLikeProtocol()
    ensures LooksLikeProtocol("tcp") && '/' !in "tcp"
  {
    assert forall c :: c in "tcp" ==> c == 't' || c == 'c' || c == 'p';
    assert 't' in "tcp";
  }

  lemma SplitProtocolProto(s: string)
    ensures LooksLikeProtocol(SplitProtocol(s).proto) && '/' !in SplitProtocol(s).proto
  {
    TcpLooksLikeProtocol();
  }

  /** A parse result never holds a ':' in its address fields, and its protocol is "tcp" or looks like a protocol. */
  lemma ParsedFieldsPlain(s: string)
    requires ParsePortSpec(s).Some?
    ensures var p := ParsePortSpec(s).value;
            ':' !in p.hostIP && ':' !in p.hostPort && '/' !in p.proto && LooksLikeProtocol(p.proto)
  {
    SplitProtocolProto(s);
    PartsPlain(Split(SplitProtocol(s).address, ':'), SplitProtocol(s).proto);
  }

  lemma PartsPlain(parts: seq<string>, proto: string)
    requires |parts| > 0 && FromParts(parts, proto).Some? && forall p :: p in parts ==> ':' !in p
    ensures var spec := FromParts(parts, proto).value;
            ':' !in spec.hostIP && ':' !in spec.hostPort && spec.proto == proto
  {
    assert parts[0] in parts;
    if |parts| == 3 {
      assert parts[1] in parts;
    }
  }

  /**
   Printing then parsing gives the long form back exactly when its host IP and published text are free of ':'
   and its protocol is absent or looks like one. In particular an IPv6 host IP never survives.
   */
  lemma RoundTripExactly(l: LongPort)
    requires ToShortForm(l).Some?
    ensures ParsePortSpec(ToShortForm(l).value) == Some(Meaning(l)) <==> WellFormed(l)
  {
    if WellFormed(l) {
      WellFormedRoundTrips(l);
    } else if ParsePortSpec(ToShortForm(l).value).Some? {
      ParsedFieldsPlain(ToShortForm(l).value);
    }
  }

  lemma WellFormedRoundTrips(l: LongPort)
    requires ToShortForm(l).Some? && WellFormed(l)
    ensures ParsePortSpec(ToShortForm(l).value) == Some(Meaning(l))
  {
    ProtocolComesOff(l);
    AddressSplits(l);
    FieldsMean(l, if l.protocol == "" then "tcp" else l.protocol);
  }

  lemma FieldsMean(l: LongPort, proto: string)
    requires ToShortForm(l).Some?
    ensures FromParts(Fields(l), proto) == Some(PortSpec(l.hostIP, HostPortText(l.published), Printed(l.target), proto))
  {
  }

  // ---------------------------------------------------------------------------------------------
  // The static-port guard against the bindings MapPorts emits
  // ---------------------------------------------------------------------------------------------

  /** One entry of HasStaticPublishedPort: a ':' in what precedes the first '/'. */
  predicate IsPublished(entry: string) {
    var slash := IndexOf(entry, '/');
    ':' in (if slash >= 0 then entry[..slash] else entry)
  }

  predicate AnyPublished(ports: seq<string>) {
    exists p :: p in ports && IsPublished(p)
  }

  method HasStaticPublishedPort(ports: seq<string>) returns (found: bool)
    ensures found <==> AnyPublished(ports)
  {
    for k := 0 to |ports|
      invariant forall j :: 0 <= j < k ==> !IsPublished(ports[j])
    {
      var base := ports[k];
      var i := IndexOf(base, '/');
      if i >= 0 {
        base := base[..i];
      }
      if IndexOf(base, ':') >= 0 {
        assert IsPublished(ports[k]);
        return true;
      }
    }
    return false;
  }

  /** The address and port validators of Docker's network library, which this model does not look inside. */
  datatype Library = Library(validPort: string -> bool, validIP: string -> bool)

  datatype Binding = Binding(hostIP: string, hostPort: string)

  /** The binding one entry contributes, keyed by "<container_port>/<proto>". */
  function BindingOf(entry: string, lib: Library): Option<(string, Binding)> {
    match ParsePortSpec(entry)
    case None => None
    case Some(spec) =>
      var port := spec.containerPort + "/" + spec.proto;
      if !lib.validPort(port) || spec.hostPort == "" || (spec.hostIP != "" && !lib.validIP(spec.hostIP)) then None
      else Some((port, Binding(if spec.hostIP != "" then spec.hostIP else "0.0.0.0", spec.hostPort)))
  }

  /** The container port one entry exposes, whether or not it is published. */
  function ExposedBy(entry: string, lib: Library): Option<string> {
    match ParsePortSpec(entry)
    case None => None
    case Some(spec) =>
      var port := spec.containerPort + "/" + spec.proto;
      if lib.validPort(port) then Some(port) else None
  }

  predicate Exposes(ports: seq<string>, port: string, lib: Library) {
    exists entry :: entry in ports && ExposedBy(entry, lib) == Some(port)
  }

  /** The bindings of a port, in the order the entries were written. */
  function BindingsFor(ports: seq<string>, port: string, lib: Library): seq<Binding> {
    if ports == [] then []
    else BindingsFor(ports[..|ports| - 1], port, lib) + Contribution(ports[|ports| - 1], port, lib)
  }

  function Contribution(entry: string, port: string, lib: Library): seq<Binding> {
    var b := BindingOf(entry, lib);
    if b.Some? && b.value.0 == port then [b.value.1] else []
  }

  function Bound(portMap: map<string, seq<Binding>>, port: string): seq<Binding> {
    if port in portMap then portMap[port] else []
  }

  /** One turn of the MapPorts loop. */
  method AddBinding(portMap: map<string, seq<Binding>>, exposed0: set<string>, raw: string, lib: Library)
      returns (result: map<string, seq<Binding>>, exposed: set<string>)
    ensures forall port :: Bound(result, port) == Bound(portMap, port) + Contribution(raw, port, lib)
    ensures forall port :: port in exposed <==> port in exposed0 || ExposedBy(raw, lib) == Some(port)
    ensures forall port :: port in result ==> port in portMap || ExposedBy(raw, lib) == Some(port)
  {
    result, exposed := portMap, exposed0;
    var spec := ParsePortSpec(raw);
    if spec.None? { return; }
    var port := spec.value.containerPort + "/" + spec.value.proto;
    if !lib.validPort(port) { return; }
    exposed := exposed + {port};
    if spec.value.hostPort == "" { return; }
    var hostIP := "0.0.0.0";
    if spec.value.hostIP != "" {
      if !lib.validIP(spec.value.hostIP) { return; }
      hostIP := spec.value.hostIP;
    }
    assert BindingOf(raw, lib) == Some((port, Binding(hostIP, spec.value.hostPort)));
    result := portMap[port := Bound(portMap, port) + [Binding(hostIP, spec.value.hostPort)]];
  }

  /** MapPorts: the binding map, and the exposed ports, which include every bound one. */
  method MapPorts(ports: seq<string>, lib: Library) returns (portMap: map<string, seq<Binding>>, exposed: set<string>)
    ensures forall port :: Bound(portMap, port) == BindingsFor(ports, port, lib)
    ensures forall port :: port in exposed <==> Exposes(ports, port, lib)
    ensures portMap.Keys <= exposed
  {
    portMap, exposed := map[], {};
    for k := 0 to |ports|
      invariant forall port :: Bound(portMap, port) == BindingsFor(ports[..k], port, lib)
      invariant forall port :: port in exposed <==> Exposes(ports[..k], port, lib)
      invariant portMap.Keys <= exposed
    {
      assert ports[..k + 1][..k] == ports[..k];
      assert forall entry :: entry in ports[..k + 1] <==> entry in ports[..k] || entry == ports[k];
      portMap, exposed := AddBinding(portMap, exposed, ports[k], lib);
    }
    assert ports[..|ports|] == ports;
  }

  /** An entry that binds a host port has a ':' outside its protocol. */
  lemma BindingNeedsColon(entry: string, lib: Library)
    requires BindingOf(entry, lib).Some?
    ensures ':' in entry
  {
    var halves := SplitProtocol(entry);
    AddressWithin(entry);
    if ':' !in halves.address {
      OneFieldBindsNothing(entry, halves);
    }
  }

  lemma AddressWithin(entry: string)
    ensures forall c :: c in SplitProtocol(entry).address ==> c in entry
  {
  }

  lemma OneFieldBindsNothing(entry: string, halves: Halves)
    requires halves == SplitProtocol(entry) && ':' !in halves.address
    ensures ParsePortSpec(entry).Some? ==> ParsePortSpec(entry).value.hostPort == ""
  {
    assert Split(halves.address, ':') == [halves.address];
  }

  /** The guard misses a binding entry exactly when its first '/' comes before its first ':'. */
  lemma GuardMissesExactly(entry: string, lib: Library)
    requires BindingOf(entry, lib).Some?
    ensures !IsPublished(entry) <==> 0 <= IndexOf(entry, '/') < IndexOf(entry, ':')
  {
    BindingNeedsColon(entry, lib);
    FirstColonDecides(entry);
  }

  lemma FirstColonDecides(entry: string)
    requires ':' in entry
    ensures !IsPublished(entry) <==> 0 <= IndexOf(entry, '/') < IndexOf(entry, ':')
  {
    var slash, colon := IndexOf(entry, '/'), IndexOf(entry, ':');
    if 0 <= slash {
      if colon < slash {
        assert entry[..slash][colon] == ':';
      } else {
        assert forall k :: 0 <= k < slash ==> entry[k] in entry[..colon];
      }
    }
  }

  ghost predicate NoColonAfterSlash(entry: string) {
    forall i, j :: 0 <= i < j < |entry| && entry[i] == '/' ==> entry[j] != ':'
  }

  /** For lists where no ':' follows a '/', every list that would bind a host port trips the guard. */
  lemma {:induction false} GuardMissesNothing(ports: seq<string>, port: string, lib: Library)
    requires forall p :: p in ports ==> NoColonAfterSlash(p)
    requires BindingsFor(ports, port, lib) != []
    ensures AnyPublished(ports)
  {
    var last := ports[|ports| - 1];
    assert last in ports;
    if BindingOf(last, lib).Some? {
      BindingNeedsColon(last, lib);
      GuardMissesExactly(last, lib);
    } else {
      GuardMissesNothing(ports[..|ports| - 1], port, lib);
    }
  }

  /**
   What it does miss: for a host part with a '/' in it, as in "a/b:80", MapPorts emits a binding the guard ignores.
   */
  lemma GuardMissesSlashedHost(host: string, target: string, lib: Library)
    requires '/' in host && ':' !in host
    requires target != "" && ':' !in target && '/' !in target && lib.validPort(target + "/" + "tcp")
    ensures var entry := host + [':'] + target;
            !IsPublished(entry) && BindingOf(entry, lib) == Some((target + "/" + "tcp", Binding("0.0.0.0", host)))
  {
    SlashBeforeColon(host, target);
    SlashedHostParses(host, target);
  }

  lemma SlashedHostParses(host: string, target: string)
    requires '/' in host && ':' !in host
    requires target != "" && ':' !in target && '/' !in target
    ensures ParsePortSpec(host + [':'] + target) == Some(PortSpec("", host, target, "tcp"))
  {
    SlashedHostKeepsTcp(host, target);
    SplitAt(host, ':', target);
    assert Split(target, ':') == [target];
  }

  lemma SlashBeforeColon(host: string, target: string)
    requires '/' in host && ':' !in host
    ensures !IsPublished(host + [':'] + target)
  {
    var entry := host + [':'] + target;
    var k := IndexOf(host, '/');
    IndexOfAt(host[..k], '/', host[k + 1..] + [':'] + target);
    assert entry == host[..k] + ['/'] + (host[k + 1..] + [':'] + target);
    assert entry[..k] == host[..k];
    assert forall i :: 0 <= i < k ==> host[..k][i] in host;
  }

  lemma SlashedHostKeepsTcp(host: string, target: string)
    requires '/' in host && '/' !in target
    ensures SplitProtocol(host + [':'] + target) == Halves(host + [':'] + target, "tcp")
  {
    var entry := host + [':'] + target;
    var i := LastIndexOf(entry, '/');
    if i >= 0 {
      ColonFollows(host, target, i);
    }
  }

  /** A ':' with no '/' before it. */
  ghost predicate ColonFirst(entry: string) {
    exists i :: 0 <= i < |entry| && entry[i] == ':' && forall j :: 0 <= j < i ==> entry[j] != '/'
  }

  /** The guard counts exactly such entries. */
  lemma PublishedExactly(entry: string)
    ensures IsPublished(entry) <==> ColonFirst(entry)
  {
    var slash := IndexOf(entry, '/');
    var base := if slash >= 0 then entry[..slash] else entry;
    if ':' in base {
      var i :| 0 <= i < |base| && base[i] == ':';
      assert entry[i] == ':';
      forall j | 0 <= j < i ensures entry[j] != '/' {
        assert slash >= 0 ==> entry[j] in entry[..slash];
      }
    }
    if ColonFirst(entry) {
      var i :| 0 <= i < |entry| && entry[i] == ':' && forall j :: 0 <= j < i ==> entry[j] != '/';
      assert slash < 0 || i < slash;
      assert base[i] == ':';
    }
  }

  // ---------------------------------------------------------------------------------------------
  // The forms of an entry, one by one
  // ---------------------------------------------------------------------------------------------

  /** A field of an entry: no separator in it. */
  predicate Field(s: string) {
    ':' !in s && '/' !in s
  }

  /** A protocol by its looks: it starts with a letter. */
  predicate ProtocolName(s: string) {
    s != "" && ('a' <= s[0] <= 'z' || 'A' <= s[0] <= 'Z') && Field(s) && '[' !in s && ']' !in s
  }

  lemma ProtocolNameLooks(s: string)
    requires ProtocolName(s)
    ensures LooksLikeProtocol(s)
  {
    assert s[0] in s;
  }

  lemma NoProtocol(s: string)
    requires '/' !in s
    ensures SplitProtocol(s) == Halves(s, "tcp")
  {
  }

  lemma FieldsSplit(ip: string, port: string, target: string)
    requires Field(ip) && Field(port) && Field(target)
    ensures Split(target, ':') == [target]
    ensures Split(port + [':'] + target, ':') == [port, target]
    ensures Split(ip + [':'] + (port + [':'] + target), ':') == [ip, port, target]
  {
    SplitAt(port, ':', target);
    SplitAt(ip, ':', port + [':'] + target);
  }

  lemma ParsesPlain(address: string)
    requires '/' !in address
    ensures ParsePortSpec(address) == FromParts(Split(address, ':'), "tcp")
  {
    NoProtocol(address);
  }

  /** Container port, host port and host address, from the right, with "tcp" for want of a protocol. */
  lemma FormsParse(ip: string, port: string, target: string)
    requires Field(ip) && Field(port) && Field(target) && target != ""
    ensures ParsePortSpec(target) == Some(PortSpec("", "", target, "tcp"))
    ensures ParsePortSpec(port + [':'] + target) == Some(PortSpec("", port, target, "tcp"))
    ensures ParsePortSpec(ip + [':'] + (port + [':'] + target)) == Some(PortSpec(ip, port, target, "tcp"))
  {
    FieldsSplit(ip, port, target);
    ParsesPlain(target);
    TwoFieldsParse(port, target, port + [':'] + target);
    ThreeFieldsParse(ip, port, target, ip + [':'] + (port + [':'] + target));
  }

  lemma TwoFieldsParse(port: string, target: string, s: string)
    requires '/' !in s && Split(s, ':') == [port, target] && target != ""
    ensures ParsePortSpec(s) == Some(PortSpec("", port, target, "tcp"))
  {
    ParsesPlain(s);
  }

  lemma ThreeFieldsParse(ip: string, port: string, target: string, s: string)
    requires '/' !in s && Split(s, ':') == [ip, port, target] && target != ""
    ensures ParsePortSpec(s) == Some(PortSpec(ip, port, target, "tcp"))
  {
    ParsesPlain(s);
  }

  lemma ParsesWith(address: string, proto: string)
    requires ProtocolName(proto)
    ensures ParsePortSpec(address + ['/'] + proto) == FromParts(Split(address, ':'), proto)
  {
    ProtocolNameLooks(proto);
    SplitProtocolAt(address, proto);
  }

  function WithProtocol(spec: Option<PortSpec>, proto: string): Option<PortSpec> {
    match spec
    case Some(s) => Some(s.(proto := proto))
    case None => None
  }

  lemma PartsWithProtocol(parts: seq<string>, proto: string)
    requires |parts| > 0
    ensures FromParts(parts, proto) == WithProtocol(FromParts(parts, "tcp"), proto)
  {
  }

  /** A protocol behind a '/' replaces "tcp" and changes nothing else. */
  lemma ProtocolFormParses(address: string, proto: string)
    requires '/' !in address && ProtocolName(proto)
    ensures ParsePortSpec(address + ['/'] + proto) == WithProtocol(ParsePortSpec(address), proto)
  {
    ParsesWith(address, proto);
    ParsesPlain(address);
    PartsWithProtocol(Split(address, ':'), proto);
  }

  lemma DigitsAreInteger(d: string)
    requires d != "" && AllDigits(d) && DigitsValue(d) <= 9223372036854775807
    ensures IsInteger(d)
  {
    assert d[0] in d;
  }

  /** A number behind the last '/' is no protocol. */
  lemma NumberIsNoProtocol(a: string, d: string)
    requires d != "" && AllDigits(d) && DigitsValue(d) <= 9223372036854775807
    ensures SplitProtocol(a + ['/'] + d) == Halves(a + ['/'] + d, "tcp")
  {
    DigitsAreInteger(d);
    var s := a + ['/'] + d;
    assert '/' !in d;
    LastIndexOfAt(a, '/', d);
    assert s[|a| + 1..] == d;
  }

  lemma SplitEndsEmpty(a: string)
    requires Field(a)
    ensures Split(a + [':'], ':') == [a, ""]
  {
    SplitAt(a, ':', "");
    assert Split("", ':') == [""];
    assert a + [':'] + "" == a + [':'];
  }

  /** No container port is an error. */
  lemma NoTargetFails(a: string, b: string)
    requires Field(a) && Field(b)
    ensures ParsePortSpec("").None? && ParsePortSpec(a + [':']).None?
    ensures ParsePortSpec(a + [':'] + (b + [':'])).None?
  {
    ParsesPlain("");
    assert Split("", ':') == [""];
    SplitEndsEmpty(a);
    ParsesPlain(a + [':']);
    NoTargetOfTwo(a, b);
  }

  lemma TwoColonsSplit(a: string, b: string, rest: string)
    requires Field(a) && Field(b) && rest == b + [':']
    ensures Split(a + [':'] + rest, ':') == [a, b, ""]
  {
    SplitEndsEmpty(b);
    SplitAt(a, ':', rest);
  }

  lemma NoTargetOfTwo(a: string, b: string)
    requires Field(a) && Field(b)
    ensures ParsePortSpec(a + [':'] + (b + [':'])).None?
  {
    var rest := b + [':'];
    TwoColonsSplit(a, b, rest);
    assert '/' !in rest;
    ParsesPlain(a + [':'] + rest);
  }

  /** So is a field in front of three or more. */
  lemma FourFieldsFail(a: string, rest: string)
    requires Field(a) && '/' !in rest && |Split(rest, ':')| >= 3
    ensures ParsePortSpec(a + [':'] + rest).None?
  {
    SplitAt(a, ':', rest);
    ParsesPlain(a + [':'] + rest);
  }

  /** What a full entry binds: its host port on its address, if the library accepts both; it exposes its port anyway. */
  lemma FullFormBinds(ip: string, port: string, target: string, proto: string, lib: Library)
    requires Field(ip) && Field(port) && Field(target) && target != "" && ProtocolName(proto)
    ensures var entry := ip + [':'] + (port + [':'] + target) + ['/'] + proto;
            var key := target + "/" + proto;
            && BindingOf(entry, lib)
               == (if lib.validPort(key) && port != "" && (ip == "" || lib.validIP(ip))
                   then Some((key, Binding(if ip == "" then "0.0.0.0" else ip, port)))
                   else None)
            && ExposedBy(entry, lib) == if lib.validPort(key) then Some(key) else None
  {
    FullFormParses(ip, port, target, proto);
  }

  lemma FullFormParses(ip: string, port: string, target: string, proto: string)
    requires Field(ip) && Field(port) && Field(target) && target != "" && ProtocolName(proto)
    ensures ParsePortSpec(ip + [':'] + (port + [':'] + target) + ['/'] + proto)
            == Some(PortSpec(ip, port, target, proto))
  {
    FormsParse(ip, port, target);
    ProtocolFormParses(ip + [':'] + (port + [':'] + target), proto);
  }
}

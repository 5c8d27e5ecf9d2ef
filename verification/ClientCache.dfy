/**
 The per-host client cache under any interleaving of callers: a check under the lock, a build outside it, and an
 install under the lock again that yields to whoever got there first.
 */
module ClientCache {
  import Text

  /** The default client belongs to the caller; the others are numbered in the order they are built. */
  datatype Client = Default | Built(n: nat)

  datatype Phase = Looking(host: string) | Holding(host: string, client: nat)

  datatype Return = Return(host: string, client: Client, epoch: nat)

  /**
   `calls` are the ClientFor calls in flight, `closes` every Close of a client in order, `lost` the clients closed
   by a caller that lost the race, `handed` every answer given, `epoch` the number of Manager.Close steps so far.
   */
  datatype State = State(byHost: map<string, nat>, calls: map<nat, Phase>, next: nat, closes: seq<nat>, lost: set<nat>,
                         handed: seq<Return>, epoch: nat)

  function Initial(): State {
    State(map[], map[], 0, [], {}, [], 0)
  }

  datatype Step =
    | Check(call: nat, host: string, hasLookup: bool) // first lock section; may return
    | LookupFails(call: nat)                          // unknown host, or no client can be built: the call errors out
    | Build(call: nat)                                // outside the lock
    | Install(call: nat)                              // second lock section; returns
    | CloseAll(order: seq<string>)                    // the hosts in whatever order the map is walked

  ghost predicate Enabled(s: State, step: Step) {
    match step
    case Check(call, _, _) => call !in s.calls
    case LookupFails(call) => call in s.calls && s.calls[call].Looking?
    case Build(call) => call in s.calls && s.calls[call].Looking?
    case Install(call) => call in s.calls && s.calls[call].Holding?
    case CloseAll(order) => Text.Distinct(order) && Text.Elements(order) == s.byHost.Keys
  }

  function ClientsOf(byHost: map<string, nat>, order: seq<string>): seq<nat>
    requires forall h :: h in order ==> h in byHost
  {
    seq(|order|, i requires 0 <= i < |order| => byHost[order[i]])
  }

  function Returning(s: State, host: string, client: Client): State {
    s.(handed := s.handed + [Return(host, client, s.epoch)])
  }

  function Installed(s: State, call: nat): State
    requires call in s.calls && s.calls[call].Holding?
  {
    var host, c := s.calls[call].host, s.calls[call].client;
    var done := s.(calls := s.calls - {call});
    if host in s.byHost then
      Returning(done.(closes := s.closes + [c], lost := s.lost + {c}), host, Built(s.byHost[host]))
    else Returning(done.(byHost := s.byHost[host := c]), host, Built(c))
  }

  ghost function Next(s: State, step: Step): State
    requires Enabled(s, step)
  {
    match step
    case Check(call, host, hasLookup) =>
      if host == "" || !hasLookup then Returning(s, "", Default)
      else if host in s.byHost then Returning(s, host, Built(s.byHost[host]))
      else s.(calls := s.calls[call := Looking(host)])
    case LookupFails(call) => s.(calls := s.calls - {call})
    case Build(call) => s.(calls := s.calls[call := Holding(s.calls[call].host, s.next)], next := s.next + 1)
    case Install(call) => Installed(s, call)
    case CloseAll(order) =>
      assert forall h :: h in order ==> h in Text.Elements(order);
      s.(byHost := map[], closes := s.closes + ClientsOf(s.byHost, order), epoch := s.epoch + 1)
  }

  // ---------------------------------------------------------------------------------------------
  // The lock sections
  // ---------------------------------------------------------------------------------------------

  /** The mutable manager: its cache, and the clients it has closed. */
  class Manager {
    var byHost: map<string, nat>
    var closes: seq<nat>

    constructor ()
      ensures byHost == map[] && closes == []
    {
      byHost, closes := map[], [];
    }

    ghost predicate Mirrors(s: State)
      reads this
    {
      byHost == s.byHost && closes == s.closes
    }

    /** The first lock section of ClientFor. */
    method CheckCached(host: string, hasLookup: bool, ghost s: State, ghost call: nat)
        returns (found: bool, client: Client)
      requires Mirrors(s) && call !in s.calls
      ensures Mirrors(Next(s, Check(call, host, hasLookup)))
      ensures found <==> |Next(s, Check(call, host, hasLookup)).handed| > |s.handed|
      ensures found ==> Next(s, Check(call, host, hasLookup)).handed[|s.handed|].client == client
    {
      if host == "" || !hasLookup {
        return true, Default;
      }
      if host in byHost {
        return true, Built(byHost[host]);
      }
      return false, Default;
    }

    /** The second lock section: keep whichever client landed first. */
    method InstallOrYield(host: string, c: nat, ghost s: State, ghost call: nat) returns (client: Client)
      requires Mirrors(s) && call in s.calls && s.calls[call] == Holding(host, c)
      modifies this
      ensures Mirrors(Next(s, Install(call)))
      ensures client == Next(s, Install(call)).handed[|s.handed|].client
    {
      if host in byHost {
        closes := closes + [c];
        return Built(byHost[host]);
      }
      byHost := byHost[host := c];
      return Built(c);
    }

    /** Close: closes and forgets every cached client. */
    method Close(order: seq<string>, ghost s: State)
      requires Mirrors(s) && Enabled(s, CloseAll(order))
      modifies this
      ensures Mirrors(Next(s, CloseAll(order)))
    {
      assert forall h :: h in order <==> h in Text.Elements(order);
      for i := 0 to |order|
        invariant Closing(byHost, closes, s, order, i)
      {
        CloseOneMore(byHost, closes, s, order, i);
        closes := closes + [byHost[order[i]]];
        byHost := byHost - {order[i]};
      }
      assert order[..|order|] == order;
    }
  }

  /** Close after i hosts: their clients are closed in order, and the others still cached as they were. */
  ghost predicate Closing(byHost: map<string, nat>, closes: seq<nat>, s: State, order: seq<string>, i: nat)
    requires i <= |order| && forall h :: h in order ==> h in s.byHost
  {
    && (forall h :: h in byHost <==> h in order && h !in order[..i])
    && (forall h :: h in byHost ==> byHost[h] == s.byHost[h])
    && closes == s.closes + ClientsOf(s.byHost, order)[..i]
  }

  lemma CloseOneMore(byHost: map<string, nat>, closes: seq<nat>, s: State, order: seq<string>, i: nat)
    requires i < |order| && Text.Distinct(order) && forall h :: h in order ==> h in s.byHost
    requires Closing(byHost, closes, s, order, i)
    ensures order[i] in byHost
    ensures Closing(byHost - {order[i]}, closes + [byHost[order[i]]], s, order, i + 1)
  {
    Text.DistinctPrefix(order, i);
    assert order[..i + 1] == order[..i] + [order[i]];
    var clients := ClientsOf(s.byHost, order);
    assert clients[..i + 1] == clients[..i] + [clients[i]];
  }

  // ---------------------------------------------------------------------------------------------
  // Every interleaving
  // ---------------------------------------------------------------------------------------------

  ghost predicate Legal(steps: seq<Step>)
    decreases |steps|, 1
  {
    steps == [] || (Legal(steps[..|steps| - 1]) && Enabled(Run(steps[..|steps| - 1]), steps[|steps| - 1]))
  }

  ghost function Run(steps: seq<Step>): State
    requires Legal(steps)
    decreases |steps|, 2
  {
    if steps == [] then Initial() else Next(Run(steps[..|steps| - 1]), steps[|steps| - 1])
  }

  ghost predicate Cached(s: State, c: nat) {
    exists h :: h in s.byHost && s.byHost[h] == c
  }

  ghost predicate Held(s: State, c: nat) {
    exists call :: call in s.calls && s.calls[call].Holding? && s.calls[call].client == c
  }

  ghost predicate Returned(s: State, c: nat) {
    exists r :: r in s.handed && r.client == Built(c)
  }

  /** Each client is cached for at most one host, held by at most one call, and not both. */
  ghost predicate OnePlace(s: State) {
    && "" !in s.byHost && (forall a :: a in s.calls ==> s.calls[a].host != "")
    && (forall a, b :: a in s.byHost && b in s.byHost && s.byHost[a] == s.byHost[b] ==> a == b)
    && (forall a, b :: a in s.calls && b in s.calls && s.calls[a].Holding? && s.calls[b].Holding?
          ==> s.calls[a].client == s.calls[b].client ==> a == b)
    && (forall a, h :: a in s.calls && s.calls[a].Holding? && h in s.byHost ==> s.calls[a].client != s.byHost[h])
  }

  /** Cached and held clients have been built and are open; clients close at most once. */
  ghost predicate OpenUntilClosed(s: State) {
    && (forall h :: h in s.byHost ==> s.byHost[h] < s.next && s.byHost[h] !in s.closes)
    && (forall a :: a in s.calls && s.calls[a].Holding? ==>
          s.calls[a].client < s.next && s.calls[a].client !in s.closes)
    && (forall c :: c in s.closes ==> c < s.next)
    && Text.Distinct(s.closes)
    && (forall c :: c in s.lost ==> c in s.closes)
  }

  /** A held client has been handed to nobody yet, and a losing one never is. */
  ghost predicate HandedOut(s: State) {
    && (forall r :: r in s.handed && r.client.Built? ==>
          r.client.n < s.next && r.client.n !in s.lost && r.epoch <= s.epoch)
    && (forall a, r :: a in s.calls && s.calls[a].Holding? && r in s.handed ==> r.client != Built(s.calls[a].client))
    && (forall r :: r in s.handed && r.epoch == s.epoch && r.client.Built? ==>
          r.host in s.byHost && s.byHost[r.host] == r.client.n)
    && (forall r :: r in s.handed ==> (r.client == Default <==> r.host == ""))
  }

  ghost predicate SameHostSameClient(s: State) {
    forall q, r :: q in s.handed && r in s.handed && q.host == r.host && q.epoch == r.epoch ==> q.client == r.client
  }

  /** Nothing built is ever forgotten. */
  ghost predicate NoneLeaked(s: State) {
    forall c: nat :: c < s.next ==> c in s.closes || Cached(s, c) || Held(s, c)
  }

  ghost predicate Invariant(s: State) {
    OnePlace(s) && OpenUntilClosed(s) && HandedOut(s) && SameHostSameClient(s) && NoneLeaked(s)
  }

  lemma ClosingAll(s: State, order: seq<string>)
    requires OnePlace(s) && OpenUntilClosed(s) && Enabled(s, CloseAll(order))
    ensures var t := Next(s, CloseAll(order));
            && Text.Distinct(t.closes)
            && (forall c: nat :: c in t.closes <==> c in s.closes || Cached(s, c))
  {
    assert forall h :: h in order <==> h in Text.Elements(order);
    var clients := ClientsOf(s.byHost, order);
    forall c: nat | Cached(s, c) ensures c in clients {
      var h :| h in s.byHost && s.byHost[h] == c;
      var i :| 0 <= i < |order| && order[i] == h;
      assert clients[i] == c;
    }
    forall i | 0 <= i < |clients| ensures Cached(s, clients[i]) && clients[i] !in s.closes {
      assert order[i] in s.byHost;
    }
    forall i, j | 0 <= i < j < |clients| ensures clients[i] != clients[j] {
      assert order[i] != order[j] && order[i] in s.byHost && order[j] in s.byHost;
    }
  }

  lemma OnePlaceKept(s: State, step: Step)
    requires Invariant(s) && Enabled(s, step)
    ensures OnePlace(Next(s, step))
  {
    if step.Install? {
      OnePlaceAfterInstall(s, step.call);
    }
  }

  lemma OnePlaceAfterInstall(s: State, call: nat)
    requires Invariant(s) && Enabled(s, Install(call))
    ensures OnePlace(Next(s, Install(call)))
  {
    var c := s.calls[call].client;
    assert forall h :: h in s.byHost ==> s.byHost[h] != c;
    assert forall a :: a in s.calls && a != call && s.calls[a].Holding? ==> s.calls[a].client != c;
  }

  lemma OpenAfterCloseAll(s: State, order: seq<string>)
    requires Invariant(s) && Enabled(s, CloseAll(order))
    ensures OpenUntilClosed(Next(s, CloseAll(order)))
  {
    ClosingAll(s, order);
    forall c: nat | Cached(s, c) ensures c < s.next && !Held(s, c) {
      var h :| h in s.byHost && s.byHost[h] == c;
    }
    forall a | a in s.calls && s.calls[a].Holding? ensures Held(s, s.calls[a].client) {}
  }

  lemma OpenAfterInstall(s: State, call: nat)
    requires Invariant(s) && Enabled(s, Install(call))
    ensures OpenUntilClosed(Next(s, Install(call)))
  {
    Text.DistinctAppend(s.closes, s.calls[call].client);
  }

  lemma OpenUntilClosedKept(s: State, step: Step)
    requires Invariant(s) && Enabled(s, step)
    ensures OpenUntilClosed(Next(s, step))
  {
    match step
    case CloseAll(order) => OpenAfterCloseAll(s, order);
    case Install(call) => OpenAfterInstall(s, call);
    case Check(_, _, _) =>
    case LookupFails(_) =>
    case Build(_) =>
  }

  lemma HandedOutAfterCheck(s: State, call: nat, host: string, hasLookup: bool)
    requires Invariant(s) && Enabled(s, Check(call, host, hasLookup))
    ensures HandedOut(Next(s, Check(call, host, hasLookup)))
  {
    if host != "" && hasLookup && host in s.byHost {
      assert s.byHost[host] !in s.lost;
    }
  }

  lemma HandedOutAfterInstall(s: State, call: nat)
    requires Invariant(s) && Enabled(s, Install(call))
    ensures HandedOut(Next(s, Install(call)))
  {
    var host := s.calls[call].host;
    if host in s.byHost {
      assert s.byHost[host] !in s.lost && s.byHost[host] != s.calls[call].client;
    }
  }

  lemma HandedOutKept(s: State, step: Step)
    requires Invariant(s) && Enabled(s, step)
    ensures HandedOut(Next(s, step))
  {
    match step
    case Check(call, host, hasLookup) => HandedOutAfterCheck(s, call, host, hasLookup);
    case Install(call) => HandedOutAfterInstall(s, call);
    case _ =>
  }

  lemma SameClientKept(s: State, step: Step)
    requires Invariant(s) && Enabled(s, step)
    ensures SameHostSameClient(Next(s, step))
  {
    HandedOutKept(s, step);
    var t := Next(s, step);
    forall q, r | q in t.handed && r in t.handed && q.host == r.host && q.epoch == r.epoch
      ensures q.client == r.client {
      if q.epoch == t.epoch && q.host != "" {
        assert q.client.Built? && r.client.Built?;
      } else if q.host != "" {
        assert q in s.handed && r in s.handed;
      }
    }
  }

  lemma NoneLeakedKept(s: State, step: Step)
    requires Invariant(s) && Enabled(s, step)
    ensures NoneLeaked(Next(s, step))
  {
    var t := Next(s, step);
    match step
    case CloseAll(order) =>
      ClosingAll(s, order);
      forall c: nat | c < t.next ensures c in t.closes || Cached(t, c) || Held(t, c) {
        assert Held(s, c) ==> Held(t, c);
      }
    case _ =>
      forall c: nat | c < t.next ensures c in t.closes || Cached(t, c) || Held(t, c) {
        PlaceMoves(s, step, c);
      }
  }

  /** Where one client goes in one step that is not a Close. */
  lemma PlaceMoves(s: State, step: Step, c: nat)
    requires Invariant(s) && Enabled(s, step) && !step.CloseAll? && c < Next(s, step).next
    ensures c in Next(s, step).closes || Cached(Next(s, step), c) || Held(Next(s, step), c)
  {
    var t := Next(s, step);
    if c == s.next {
      assert step.Build?;
      assert t.calls[step.call].client == c;
    } else if c in s.closes {
    } else if Cached(s, c) {
      var h :| h in s.byHost && s.byHost[h] == c;
      assert t.byHost[h] == c;
    } else {
      var call :| call in s.calls && s.calls[call].Holding? && s.calls[call].client == c;
      HeldMoves(s, step, call);
    }
  }

  lemma HeldMoves(s: State, step: Step, call: nat)
    requires Enabled(s, step) && !step.CloseAll? && call in s.calls && s.calls[call].Holding?
    ensures var t, c := Next(s, step), s.calls[call].client; c in t.closes || Cached(t, c) || Held(t, c)
  {
    var t := Next(s, step);
    if step == Install(call) {
      var h := s.calls[call].host;
      if h !in s.byHost {
        assert t.byHost[h] == s.calls[call].client;
      }
    } else {
      assert call in t.calls && t.calls[call] == s.calls[call];
    }
  }

  lemma {:induction false} Reachable(steps: seq<Step>)
    requires Legal(steps)
    ensures Invariant(Run(steps))
    decreases |steps|
  {
    if steps != [] {
      var s, step := Run(steps[..|steps| - 1]), steps[|steps| - 1];
      Reachable(steps[..|steps| - 1]);
      OnePlaceKept(s, step);
      OpenUntilClosedKept(s, step);
      HandedOutKept(s, step);
      SameClientKept(s, step);
      NoneLeakedKept(s, step);
    }
  }

  // ---------------------------------------------------------------------------------------------
  // Main results
  // ---------------------------------------------------------------------------------------------

  /** Between two Close steps every call for one host is answered with the same client. */
  lemma OneClientPerHost(steps: seq<Step>, i: nat, j: nat)
    requires Legal(steps) && i < |Run(steps).handed| && j < |Run(steps).handed|
    requires Run(steps).handed[i].host == Run(steps).handed[j].host
    requires Run(steps).handed[i].epoch == Run(steps).handed[j].epoch
    ensures Run(steps).handed[i].client == Run(steps).handed[j].client
  {
    Reachable(steps);
  }

  /** A client that lost the race is closed, once, and handed to nobody. */
  lemma LoserClosedNeverReturned(steps: seq<Step>, c: nat)
    requires Legal(steps) && c in Run(steps).lost
    ensures c in Run(steps).closes && Text.Distinct(Run(steps).closes) && !Returned(Run(steps), c)
  {
    Reachable(steps);
  }

  /**
   Every client ever built is in exactly one place: closed, cached for a host, or held by a call yet to install it.
   */
  lemma NoClientLeaks(steps: seq<Step>, c: nat)
    requires Legal(steps) && c < Run(steps).next
    ensures var s := Run(steps);
            && (c in s.closes || Cached(s, c) || Held(s, c))
            && !(c in s.closes && Cached(s, c)) && !(c in s.closes && Held(s, c)) && !(Cached(s, c) && Held(s, c))
  {
    Reachable(steps);
  }

  /** What a call is handed stays open until the next Close: in its own epoch the client is the cached one. */
  lemma HandedClientIsOpen(steps: seq<Step>, r: Return)
    requires Legal(steps) && r in Run(steps).handed && r.client.Built? && r.epoch == Run(steps).epoch
    ensures r.client.n !in Run(steps).closes && Cached(Run(steps), r.client.n)
  {
    Reachable(steps);
  }
}

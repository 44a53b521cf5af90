/**
  What `listenServices` promises about its registry of services and the index
  `apis` it publishes for requests (gateway/upstreamer/push/upstreamer.go,
  gateway/upstreamer/push/utils.go), as a relation between states: where a map
  is iterated, every order is allowed.
*/
module Registry {
  import opened Wrappers
  import opened Paths
  import opened Routes

  type RouteMap = map<int, seq<RouteInfo>>

  /** `exposePrivateAPIs` and `eventsAPIs` */
  datatype Settings = Settings(exposePrivate: bool, events: map<string, string>)

  datatype Announced = Announced(limit: real, burst: int)

  datatype Ping = Ping(
    name: string, prefix: string, endpoint: string, routes: RouteMap, limiters: map<string, Announced>, load: real)

  function KeyOf(p: Ping): string { ServiceKey(p.prefix, p.name) }

  datatype EndpointState = EndpointState(lastSeen: int, load: real)

  datatype ServiceState = ServiceState(routes: RouteMap, endpoints: map<string, EndpointState>)

  type Services = map<string, ServiceState>

  /** The registry, and for each routing key the endpoint addresses requests may go to. */
  datatype State = State(services: Services, apis: map<string, seq<string>>)

  const Init := State(map[], map[])

  // ---------------------------------------------------------------- exposure

  predicate Visible(cfg: Settings, r: RouteInfo) { !r.private || cfg.exposePrivate }

  ghost predicate ExposesRoute(cfg: Settings, key: string, routes: RouteMap, api: string) {
    exists v, i :: v in routes && 0 <= i < |routes[v]| && Visible(cfg, routes[v][i])
                   && api == ExtractPrefix(key).prefix + "/" + routes[v][i].identity
  }

  predicate ExposesEvents(cfg: Settings, key: string, api: string) {
    var e := ExtractPrefix(key);
    e.name in cfg.events && api == e.prefix + "/" + cfg.events[e.name]
  }

  /** The service stored under `key` exposes the routing key `api`, by a visible route or its event API. */
  ghost predicate Exposes(cfg: Settings, key: string, routes: RouteMap, api: string) {
    ExposesRoute(cfg, key, routes, api) || ExposesEvents(cfg, key, api)
  }

  // ---------------------------------------------------------------- the index

  ghost predicate IsListing(l: seq<string>, addresses: set<string>) {
    && (forall i, j :: 0 <= i < j < |l| ==> l[i] != l[j])
    && (forall a :: a in l <==> a in addresses)
  }

  ghost predicate Serves(cfg: Settings, services: Services, key: string, api: string) {
    key in services && Exposes(cfg, key, services[key].routes, api)
  }

  /** In this order of the services, position `i` is the last one to write the key `api`. */
  ghost predicate Wins(cfg: Settings, services: Services, order: seq<string>, api: string, i: int) {
    && 0 <= i < |order| && Serves(cfg, services, order[i], api)
    && forall j :: i < j < |order| ==> !Serves(cfg, services, order[j], api)
  }

  /** Each key lists the endpoints of the service that wrote it last. */
  ghost predicate WonBy(cfg: Settings, services: Services, order: seq<string>, apis: map<string, seq<string>>) {
    && IsListing(order, services.Keys)
    && forall api :: api in apis ==>
         exists i :: Wins(cfg, services, order, api, i) && IsListing(apis[api], services[order[i]].endpoints.Keys)
  }

  /**
    `apis` is a possible outcome of `resyncRoutes`: one order of the services decides every key that
    several expose.
  */
  ghost predicate IsIndex(cfg: Settings, services: Services, apis: map<string, seq<string>>) {
    && (forall api :: api in apis <==> exists key :: Serves(cfg, services, key, api))
    && exists order :: WonBy(cfg, services, order, apis)
  }

  /** The index is current and no service is without endpoints. */
  ghost predicate Inv(cfg: Settings, s: State) {
    IsIndex(cfg, s.services, s.apis) && Populated(s.services)
  }

  predicate HasEndpoints(services: Services, key: string) {
    key in services ==> services[key].endpoints.Keys != {}
  }

  ghost predicate Populated(services: Services) {
    forall key :: HasEndpoints(services, key)
  }

  // ---------------------------------------------------------------- the steps

  predicate Registered(services: Services, key: string, address: string) {
    key in services && address in services[key].endpoints
  }

  predicate IsOutdated(services: Services, since: int, key: string, address: string) {
    Registered(services, key, address) && services[key].endpoints[address].lastSeen < since
  }

  /** A hello pokes a registered endpoint; else it registers it and replaces the routes of the whole service. */
  function AfterHello(services: Services, p: Ping, now: int): Services {
    var key := KeyOf(p);
    var endpoints := if key in services then services[key].endpoints else map[];
    var routes := if Registered(services, key, p.endpoint) then services[key].routes else p.routes;
    services[key := ServiceState(routes, endpoints[p.endpoint := EndpointState(now, p.load)])]
  }

  /** Removes an endpoint, and its service with the last one. */
  function Without(services: Services, key: string, address: string): Services
    requires Registered(services, key, address)
  {
    var left := services[key].endpoints - {address};
    if left.Keys == {} then services - {key}
    else services[key := services[key].(endpoints := left)]
  }

  datatype Event = Hello(ping: Ping, now: int) | Goodbye(key: string, address: string) | Tick(since: int)

  /**
    What a tick can do to the registry: the outdated endpoints are looked at in
    any order, and the first one whose rebuilt key still names a registered
    endpoint is the only one removed.
  */
  ghost predicate TickOutcome(s: Services, since: int, t: Services) {
    || (exists key, address :: TickRemoves(s, since, key, address) && t == Without(s, TickKey(key), address))
    || ((forall key, address :: !TickRemoves(s, since, key, address)) && t == s)
  }

  predicate TickRemoves(s: Services, since: int, key: string, address: string) {
    IsOutdated(s, since, key, address) && Registered(s, TickKey(key), address)
  }

  /** What each event does to the registry. */
  ghost predicate Moves(s: Services, e: Event, t: Services) {
    match e
    case Hello(p, now) => t == AfterHello(s, p, now)
    case Goodbye(key, address) => t == if Registered(s, key, address) then Without(s, key, address) else s
    case Tick(since) => TickOutcome(s, since, t)
  }

  /** Whether the index is rebuilt: not for a poke, an unknown goodbye or a tick that removes nothing. */
  predicate Rebuilds(s: Services, e: Event, t: Services) {
    match e
    case Hello(p, now) => !Registered(s, KeyOf(p), p.endpoint)
    case Goodbye(key, address) => Registered(s, key, address)
    case Tick(since) => t != s
  }

  ghost predicate Step(cfg: Settings, s: State, e: Event, t: State) {
    && Moves(s.services, e, t.services)
    && if Rebuilds(s.services, e, t.services) then IsIndex(cfg, t.services, t.apis) else t.apis == s.apis
  }

  ghost predicate IsRun(cfg: Settings, events: seq<Event>, states: seq<State>) {
    && |states| == |events| + 1 && states[0] == Init
    && forall i :: 0 <= i < |events| ==> Step(cfg, states[i], events[i], states[i + 1])
  }

  // ---------------------------------------------------------------- the index is current on every run

  /** Services that expose the same keys with the same addresses have the same indexes. */
  lemma IndexDependsOnRoutesAndAddresses(cfg: Settings, s: Services, t: Services, apis: map<string, seq<string>>)
    requires s.Keys == t.Keys
    requires forall key :: key in s ==> s[key].routes == t[key].routes && s[key].endpoints.Keys == t[key].endpoints.Keys
    requires IsIndex(cfg, s, apis)
    ensures IsIndex(cfg, t, apis)
  {
    forall key, api ensures Serves(cfg, s, key, api) <==> Serves(cfg, t, key, api) {
    }
    var order :| WonBy(cfg, s, order, apis);
    forall api | api in apis
      ensures exists i :: Wins(cfg, t, order, api, i) && IsListing(apis[api], t[order[i]].endpoints.Keys)
    {
      var i :| Wins(cfg, s, order, api, i) && IsListing(apis[api], s[order[i]].endpoints.Keys);
      assert Wins(cfg, t, order, api, i);
    }
    assert WonBy(cfg, t, order, apis);
  }

  /** Each key of an index lists exactly the endpoints of one service that exposes it. */
  lemma IndexLists(cfg: Settings, s: Services, apis: map<string, seq<string>>, api: string) returns (key: string)
    requires IsIndex(cfg, s, apis) && api in apis
    ensures Serves(cfg, s, key, api) && IsListing(apis[api], s[key].endpoints.Keys)
  {
    var order :| WonBy(cfg, s, order, apis);
    var i :| Wins(cfg, s, order, api, i) && IsListing(apis[api], s[order[i]].endpoints.Keys);
    key := order[i];
  }

  lemma NoServicesNoKeys(cfg: Settings)
    ensures Inv(cfg, Init)
  {
    assert WonBy(cfg, Init.services, [], Init.apis);
  }

  lemma HelloPopulates(s: Services, p: Ping, now: int)
    requires Populated(s)
    ensures Populated(AfterHello(s, p, now))
  {
    var t := AfterHello(s, p, now);
    assert p.endpoint in t[KeyOf(p)].endpoints.Keys;
    forall key ensures HasEndpoints(t, key) {
      assert HasEndpoints(s, key);
    }
  }

  lemma WithoutPopulated(s: Services, key: string, address: string)
    requires Populated(s) && Registered(s, key, address)
    ensures Populated(Without(s, key, address))
  {
    forall k ensures HasEndpoints(Without(s, key, address), k) {
      assert HasEndpoints(s, k);
    }
  }

  /** A poke changes dates and loads only, so the index need not be rebuilt. */
  lemma PokeKeepsIndex(cfg: Settings, s: State, p: Ping, now: int)
    requires Inv(cfg, s) && Registered(s.services, KeyOf(p), p.endpoint)
    ensures Inv(cfg, State(AfterHello(s.services, p, now), s.apis))
  {
    var t := AfterHello(s.services, p, now);
    assert t[KeyOf(p)].endpoints.Keys == s.services[KeyOf(p)].endpoints.Keys;
    HelloPopulates(s.services, p, now);
    IndexDependsOnRoutesAndAddresses(cfg, s.services, t, s.apis);
  }

  lemma WithoutKeepsEndpoints(s: Services, key: string, address: string)
    requires Registered(s, key, address)
    requires Populated(s)
    ensures var t := Without(s, key, address);
            && Populated(t)
            && t != s && !Registered(t, key, address)
            && forall k, a :: k != key || a != address ==>
                 (Registered(t, k, a) <==> Registered(s, k, a)) &&
                 (Registered(s, k, a) ==> t[k].endpoints[a] == s[k].endpoints[a])
  {
    var left := s[key].endpoints - {address};
    assert forall a :: a in left.Keys <==> a in s[key].endpoints && a != address;
    WithoutPopulated(s, key, address);
  }

  lemma StepKeepsInv(cfg: Settings, s: State, e: Event, t: State)
    requires Inv(cfg, s) && Step(cfg, s, e, t)
    ensures Inv(cfg, t)
  {
    match e
    case Hello(p, now) =>
      if Registered(s.services, KeyOf(p), p.endpoint) {
        PokeKeepsIndex(cfg, s, p, now);
      }
      HelloPopulates(s.services, p, now);
    case Goodbye(key, address) =>
      if Registered(s.services, key, address) {
        WithoutKeepsEndpoints(s.services, key, address);
      }
    case Tick(since) =>
      if t.services != s.services {
        var key, address :| TickRemoves(s.services, since, key, address)
                            && t.services == Without(s.services, TickKey(key), address);
        WithoutKeepsEndpoints(s.services, TickKey(key), address);
      }
  }

  /** In every state of every run the published index is a current one and every service has an endpoint. */
  lemma {:induction false} IndexIsCurrentOnEveryRun(cfg: Settings, events: seq<Event>, states: seq<State>, n: nat)
    requires IsRun(cfg, events, states) && n < |states|
    ensures Inv(cfg, states[n])
  {
    NoServicesNoKeys(cfg);
    if n > 0 {
      IndexIsCurrentOnEveryRun(cfg, events, states, n - 1);
      StepKeepsInv(cfg, states[n - 1], events[n - 1], states[n]);
    }
  }

  // ---------------------------------------------------------------- ticks

  /** The outdated endpoints, as pairs of service key and address. */
  function Outdated(s: Services, since: int): set<(string, string)> {
    set key, address | key in s && address in s[key].endpoints
      && s[key].endpoints[address].lastSeen < since :: (key, address)
  }

  function OutdatedAddresses(services: Services, since: int): set<string> {
    set o | o in Outdated(services, since) :: o.1
  }

  lemma OutdatedAddressesAre(services: Services, since: int)
    ensures forall a :: a in OutdatedAddresses(services, since) <==> exists key :: IsOutdated(services, since, key, a)
  {
    forall a, key | IsOutdated(services, since, key, a) ensures a in OutdatedAddresses(services, since) {
      assert (key, a) in Outdated(services, since);
    }
    forall a | a in OutdatedAddresses(services, since) ensures exists key :: IsOutdated(services, since, key, a) {
      var o :| o in Outdated(services, since) && o.1 == a;
      assert IsOutdated(services, since, o.0, a);
    }
  }

  /** No outdated endpoint is stored under a key with a leading slash, so a tick names the services it means. */
  ghost predicate PlainOutdated(s: Services, since: int) {
    forall key, address :: IsOutdated(s, since, key, address) ==> !StartsWith(key, "/")
  }

  lemma PlainTickRemoves(s: Services, since: int, key: string, address: string)
    requires PlainOutdated(s, since)
    ensures TickRemoves(s, since, key, address) <==> IsOutdated(s, since, key, address)
    ensures IsOutdated(s, since, key, address) ==> TickKey(key) == key
  {
    KeyRoundTrip(key);
  }

  lemma TickCases(s: Services, since: int, t: Services)
    requires PlainOutdated(s, since) && TickOutcome(s, since, t)
    ensures || (Outdated(s, since) == {} && t == s)
            || exists key, address :: IsOutdated(s, since, key, address) && t == Without(s, key, address)
  {
    forall key, address { PlainTickRemoves(s, since, key, address); }
    if key, address :| TickRemoves(s, since, key, address) && t == Without(s, TickKey(key), address) {
      assert IsOutdated(s, since, key, address);
    } else {
      assert forall key, address :: !IsOutdated(s, since, key, address);
      assert forall o :: o in Outdated(s, since) ==> IsOutdated(s, since, o.0, o.1);
    }
  }

  lemma OutdatedWithout(s: Services, since: int, key: string, address: string)
    requires Populated(s) && IsOutdated(s, since, key, address)
    ensures (key, address) in Outdated(s, since)
    ensures Outdated(Without(s, key, address), since) == Outdated(s, since) - {(key, address)}
  {
    var t := Without(s, key, address);
    WithoutKeepsEndpoints(s, key, address);
    forall k, a ensures (k, a) in Outdated(t, since) <==> (k, a) in Outdated(s, since) && (k, a) != (key, address) {
      assert (k, a) in Outdated(t, since) <==> IsOutdated(t, since, k, a);
      assert (k, a) in Outdated(s, since) <==> IsOutdated(s, since, k, a);
    }
  }

  ghost predicate KeepsFresh(s: Services, since: int, t: Services) {
    forall key, address :: Registered(s, key, address) && !IsOutdated(s, since, key, address) ==>
      Registered(t, key, address) && t[key].endpoints[address] == s[key].endpoints[address]
  }

  /** What a tick is for: one outdated endpoint goes when there is one, and no fresh one. */
  ghost predicate RemovesOneOutdated(s: Services, since: int, t: Services) {
    && (Outdated(s, since) == {} ==> t == s)
    && (Outdated(s, since) != {} ==>
          exists gone :: gone in Outdated(s, since) && Outdated(t, since) == Outdated(s, since) - {gone})
    && KeepsFresh(s, since, t)
  }

  lemma WithoutOutdatedIsRight(s: Services, since: int, key: string, address: string)
    requires Populated(s) && IsOutdated(s, since, key, address)
    ensures RemovesOneOutdated(s, since, Without(s, key, address))
  {
    OutdatedWithout(s, since, key, address);
    WithoutKeepsEndpoints(s, key, address);
    assert (key, address) in Outdated(s, since);
  }

  lemma NothingOutdated(s: Services, since: int)
    ensures Outdated(s, since) == {} <==> forall key, address :: !IsOutdated(s, since, key, address)
  {
    forall key, address ensures IsOutdated(s, since, key, address) <==> (key, address) in Outdated(s, since) {
    }
    assert forall o :: o in Outdated(s, since) ==> IsOutdated(s, since, o.0, o.1);
  }

  /** An outdated endpoint that a tick does find again: its key has no leading slash, or is there without it too. */
  predicate IsFound(s: Services, since: int, key: string, address: string) {
    IsOutdated(s, since, key, address) && (StartsWith(key, "/") ==> Registered(s, key[1..], address))
  }

  lemma FoundIsRemovable(s: Services, since: int, key: string, address: string)
    ensures IsFound(s, since, key, address) <==> TickRemoves(s, since, key, address)
  {
    KeyRoundTrip(key);
  }

  /** A tick removes nothing exactly when every outdated endpoint is lost behind a leading slash. */
  lemma TickRemovesNothingExactlyWhen(s: Services, since: int, t: Services)
    requires Populated(s) && TickOutcome(s, since, t)
    ensures t == s <==>
            forall key, a :: IsOutdated(s, since, key, a) ==> StartsWith(key, "/") && !Registered(s, key[1..], a)
  {
    forall key, a { FoundIsRemovable(s, since, key, a); }
    if key, a :| TickRemoves(s, since, key, a) && t == Without(s, TickKey(key), a) {
      WithoutKeepsEndpoints(s, TickKey(key), a);
      assert IsFound(s, since, key, a);
    } else {
      forall key, a | IsOutdated(s, since, key, a) ensures StartsWith(key, "/") && !Registered(s, key[1..], a) {
        assert !TickRemoves(s, since, key, a);
      }
    }
  }

  /** An endpoint under a key with a leading slash is never removed by a tick, unless it is also one slash deeper. */
  lemma SlashedStays(s: Services, since: int, t: Services, key: string, address: string)
    requires Populated(s) && TickOutcome(s, since, t)
    requires StartsWith(key, "/") && Registered(s, key, address) && !Registered(s, "/" + key, address)
    ensures Registered(t, key, address) && t[key].endpoints[address] == s[key].endpoints[address]
    ensures !Registered(t, "/" + key, address)
  {
    if k, a :| TickRemoves(s, since, k, a) && t == Without(s, TickKey(k), a) {
      WithoutKeepsEndpoints(s, TickKey(k), a);
      KeyRoundTrip(k);
      assert TickKey(k) == key ==> StartsWith(k, "/") && k == "/" + key by { SlashBefore(k); }
    }
  }

  lemma SlashBefore(key: string)
    ensures StartsWith(key, "/") ==> key == "/" + key[1..]
  {
    if StartsWith(key, "/") { assert key == key[..1] + key[1..]; }
  }

  lemma HidingIsWrong(s: Services, since: int, key: string, address: string)
    requires Populated(s) && HidesFresh(s, since, key, address)
    ensures exists t :: TickOutcome(s, since, t) && !RemovesOneOutdated(s, since, t)
  {
    KeyRoundTrip(key);
    var t := Without(s, key[1..], address);
    WithoutKeepsEndpoints(s, key[1..], address);
    assert TickRemoves(s, since, key, address);
    assert TickOutcome(s, since, t) && !KeepsFresh(s, since, t);
  }

  /**
    Every possible outcome of a tick is right exactly when some outdated
    endpoint is found again, or there is none, and no outdated one hides a
    fresh one behind a leading slash.
  */
  lemma TickIsRightExactlyWhen(s: Services, since: int)
    requires Populated(s)
    ensures (forall t :: TickOutcome(s, since, t) ==> RemovesOneOutdated(s, since, t)) <==>
            && (Outdated(s, since) == {} || exists key, a :: IsFound(s, since, key, a))
            && (forall key, a :: !HidesFresh(s, since, key, a))
  {
    forall key, a { FoundIsRemovable(s, since, key, a); }
    NothingOutdated(s, since);
    if key, a :| HidesFresh(s, since, key, a) {
      HidingIsWrong(s, since, key, a);
    } else if forall key, a :: !IsFound(s, since, key, a) {
      assert TickOutcome(s, since, s);
    }
    if (Outdated(s, since) == {} || exists key, a :: IsFound(s, since, key, a))
       && forall key, a :: !HidesFresh(s, since, key, a) {
      forall t | TickOutcome(s, since, t) ensures RemovesOneOutdated(s, since, t) {
        if k, a :| TickRemoves(s, since, k, a) && t == Without(s, TickKey(k), a) {
          KeyRoundTrip(k);
          assert !HidesFresh(s, since, k, a);
          WithoutOutdatedIsRight(s, since, TickKey(k), a);
        }
      }
    }
  }

  /** So it is when no outdated endpoint is stored under a key with a leading slash. */
  lemma TickRemovesExactlyOne(s: Services, since: int, t: Services)
    requires PlainOutdated(s, since) && Populated(s) && TickOutcome(s, since, t)
    ensures RemovesOneOutdated(s, since, t) && PlainOutdated(t, since) && Populated(t)
  {
    TickCases(s, since, t);
    if key, address :| IsOutdated(s, since, key, address) && t == Without(s, key, address) {
      WithoutOutdatedIsRight(s, since, key, address);
      WithoutKeepsEndpoints(s, key, address);
      forall k, a | IsOutdated(t, since, k, a) ensures !StartsWith(k, "/") {
        assert IsOutdated(s, since, k, a);
      }
    }
  }

  /**
    In dates, when no key starts with a slash: if an endpoint was last seen
    before the given date, a tick takes away one that was, and nothing else.
  */
  lemma TickTakesOne(s: Services, since: int, t: Services, service: string, x: string) returns (key: string, a: string)
    requires Populated(s) && TickOutcome(s, since, t) && forall key :: key in s ==> !StartsWith(key, "/")
    requires service in s && x in s[service].endpoints && s[service].endpoints[x].lastSeen < since
    ensures key in s && a in s[key].endpoints && s[key].endpoints[a].lastSeen < since && !Registered(t, key, a)
    ensures forall k, b :: k != key || b != a ==>
              (Registered(t, k, b) <==> Registered(s, k, b))
              && (Registered(s, k, b) ==> t[k].endpoints[b] == s[k].endpoints[b])
  {
    assert PlainOutdated(s, since);
    TickCases(s, since, t);
    NothingOutdated(s, since);
    assert IsOutdated(s, since, service, x);
    key, a :| IsOutdated(s, since, key, a) && t == Without(s, key, a);
    WithoutKeepsEndpoints(s, key, a);
  }

  /** And if every endpoint was seen since, it takes none. */
  lemma TickTakesNone(s: Services, since: int, t: Services)
    requires TickOutcome(s, since, t)
    requires forall key, a :: key in s && a in s[key].endpoints ==> s[key].endpoints[a].lastSeen >= since
    ensures t == s
  {
    assert forall key, a :: !TickRemoves(s, since, key, a);
  }

  lemma PlainOutdatedIs(s: Services, since: int)
    ensures PlainOutdated(s, since) <==> forall o :: o in Outdated(s, since) ==> !StartsWith(o.0, "/")
  {
    assert forall key, a :: IsOutdated(s, since, key, a) <==> (key, a) in Outdated(s, since);
    if PlainOutdated(s, since) {
      forall o | o in Outdated(s, since) ensures !StartsWith(o.0, "/") {
        assert IsOutdated(s, since, o.0, o.1);
      }
    }
  }

  lemma TickCountsDown(s: Services, since: int, t: Services, cutoff: int)
    requires PlainOutdated(s, cutoff) && Populated(s) && TickOutcome(s, since, t)
    requires Outdated(s, since) == Outdated(s, cutoff)
    ensures PlainOutdated(t, cutoff) && Populated(t) && Outdated(t, cutoff) <= Outdated(s, cutoff)
    ensures |Outdated(t, cutoff)| == if |Outdated(s, cutoff)| == 0 then 0 else |Outdated(s, cutoff)| - 1
  {
    PlainOutdatedIs(s, cutoff);
    PlainOutdatedIs(s, since);
    TickRemovesExactlyOne(s, since, t);
    TickCases(s, since, t);
    if key, address :| IsOutdated(s, since, key, address) && t == Without(s, key, address) {
      OutdatedWithout(s, since, key, address);
      assert IsOutdated(s, cutoff, key, address) by { assert (key, address) in Outdated(s, cutoff); }
      OutdatedWithout(s, cutoff, key, address);
    }
    PlainOutdatedIs(t, cutoff);
  }

  /** While nothing newly expires, each tick brings the outdated endpoints down by one until none is left. */
  lemma {:induction false} TicksDrain(states: seq<Services>, cutoffs: seq<int>, n: nat)
    requires |states| == |cutoffs| + 1 && 0 < n < |states|
    requires PlainOutdated(states[0], cutoffs[0]) && Populated(states[0])
    requires forall i :: 0 <= i < |cutoffs| ==> TickOutcome(states[i], cutoffs[i], states[i + 1])
    requires forall i :: 0 <= i < |cutoffs| ==> Outdated(states[i], cutoffs[i]) == Outdated(states[i], cutoffs[0])
    ensures PlainOutdated(states[n], cutoffs[0]) && Populated(states[n])
    ensures var left := |Outdated(states[0], cutoffs[0])| - n;
            |Outdated(states[n], cutoffs[0])| == if left <= 0 then 0 else left
  {
    if n > 1 {
      TicksDrain(states, cutoffs, n - 1);
    }
    TickCountsDown(states[n - 1], cutoffs[n - 1], states[n], cutoffs[0]);
  }

  // ---------------------------------------------------------------- ticks among other events

  function TicksIn(events: seq<Event>, n: nat): nat
    requires n <= |events|
  {
    if n == 0 then 0 else TicksIn(events, n - 1) + (if events[n - 1].Tick? then 1 else 0)
  }

  /** The event makes nothing newly outdated: hellos are recent, and a tick finds what is outdated at the cutoff. */
  predicate ExpiresNothing(s: Services, e: Event, cutoff: int) {
    && (e.Hello? ==> e.now >= cutoff)
    && (e.Tick? ==> Outdated(s, e.since) == Outdated(s, cutoff))
  }

  lemma OutdatedShrinks(cfg: Settings, s: State, e: Event, t: State, cutoff: int)
    requires Step(cfg, s, e, t) && !e.Tick? && ExpiresNothing(s.services, e, cutoff) && Populated(s.services)
    ensures Outdated(t.services, cutoff) <= Outdated(s.services, cutoff)
  {
    forall o | o in Outdated(t.services, cutoff) ensures o in Outdated(s.services, cutoff) {
      assert IsOutdated(t.services, cutoff, o.0, o.1);
      if e.Goodbye? && Registered(s.services, e.key, e.address) {
        WithoutKeepsEndpoints(s.services, e.key, e.address);
      }
      assert IsOutdated(s.services, cutoff, o.0, o.1);
    }
  }

  lemma DrainStep(cfg: Settings, s: State, e: Event, t: State, cutoff: int)
    requires Inv(cfg, s) && Step(cfg, s, e, t) && ExpiresNothing(s.services, e, cutoff)
    requires PlainOutdated(s.services, cutoff)
    ensures Inv(cfg, t) && PlainOutdated(t.services, cutoff)
    ensures |Outdated(t.services, cutoff)| <= |Outdated(s.services, cutoff)|
    ensures e.Tick? && Outdated(s.services, cutoff) != {} ==>
              |Outdated(t.services, cutoff)| < |Outdated(s.services, cutoff)|
  {
    StepKeepsInv(cfg, s, e, t);
    PlainOutdatedIs(s.services, cutoff);
    if e.Tick? {
      TickCountsDown(s.services, e.since, t.services, cutoff);
    } else {
      OutdatedShrinks(cfg, s, e, t, cutoff);
      SubsetSize(Outdated(t.services, cutoff), Outdated(s.services, cutoff));
    }
    PlainOutdatedIs(t.services, cutoff);
  }

  /** Whatever hellos and goodbyes come between them, as many ticks as there are outdated endpoints clear them all. */
  lemma {:induction false} RunsDrain(cfg: Settings, events: seq<Event>, states: seq<State>, cutoff: int, n: nat)
    requires |states| == |events| + 1 && n <= |events| && Inv(cfg, states[0])
    requires forall i :: 0 <= i < |events| ==> Step(cfg, states[i], events[i], states[i + 1])
    requires forall i :: 0 <= i < |events| ==> ExpiresNothing(states[i].services, events[i], cutoff)
    requires PlainOutdated(states[0].services, cutoff)
    ensures Inv(cfg, states[n]) && PlainOutdated(states[n].services, cutoff)
    ensures var left := |Outdated(states[0].services, cutoff)| - TicksIn(events, n);
            |Outdated(states[n].services, cutoff)| <= if left <= 0 then 0 else left
  {
    if n > 0 {
      RunsDrain(cfg, events, states, cutoff, n - 1);
      DrainStep(cfg, states[n - 1], events[n - 1], states[n], cutoff);
    }
  }

  /** With other keys a tick can remove a fresh endpoint, exactly when an outdated one hides behind a leading slash. */
  lemma TickCanRemoveFreshExactlyWhen(s: Services, since: int)
    requires Populated(s)
    ensures (exists t, key, address :: TickOutcome(s, since, t) && Registered(s, key, address)
                                       && !IsOutdated(s, since, key, address) && !Registered(t, key, address))
            <==>
            (exists key, address :: HidesFresh(s, since, key, address))
  {
    if key, address :| HidesFresh(s, since, key, address) {
      KeyRoundTrip(key);
      WithoutKeepsEndpoints(s, key[1..], address);
      assert TickRemoves(s, since, key, address);
      var t := Without(s, TickKey(key), address);
      assert TickOutcome(s, since, t);
    }
    if t, key, address :| TickOutcome(s, since, t) && Registered(s, key, address)
                          && !IsOutdated(s, since, key, address) && !Registered(t, key, address) {
      var k, a :| TickRemoves(s, since, k, a) && t == Without(s, TickKey(k), a);
      WithoutKeepsEndpoints(s, TickKey(k), a);
      KeyRoundTrip(k);
      assert HidesFresh(s, since, k, a);
    }
  }

  predicate HidesFresh(s: Services, since: int, key: string, address: string) {
    && StartsWith(key, "/") && IsOutdated(s, since, key, address)
    && Registered(s, key[1..], address) && !IsOutdated(s, since, key[1..], address)
  }

  /** The hello of a service without routes. */
  function Bare(name: string, address: string): Ping { Ping(name, "", address, map[], map[], 0.0) }

  function BareEntry(address: string, seen: int): ServiceState {
    ServiceState(map[], map[address := EndpointState(seen, 0.0)])
  }

  lemma NothingExposed(services: Services, order: seq<string>)
    requires IsListing(order, services.Keys) && forall key :: key in services ==> services[key].routes == map[]
    ensures IsIndex(Settings(false, map[]), services, map[])
  {
    var cfg := Settings(false, map[]);
    forall key, api ensures !Serves(cfg, services, key, api) {
    }
    assert WonBy(cfg, services, order, map[]);
  }

  /**
    A run on which a tick loses a fresh endpoint: it is announced under `/a`
    and later under `a`, and when the older entry has expired the tick removes
    the newer one.
  */
  lemma FreshEndpointLost(x: string) returns (events: seq<Event>, states: seq<State>)
    ensures IsRun(Settings(false, map[]), events, states) && |events| == 3 && events[2] == Tick(3)
    ensures Registered(states[2].services, "a", x) && !IsOutdated(states[2].services, 3, "a", x)
    ensures !Registered(states[3].services, "a", x)
  {
    var first, again := Bare("/a", x), Bare("a", x);
    assert KeyOf(first) == "/a" && KeyOf(again) == "a" && "/a"[1..] == "a";
    var one: Services := map["/a" := BareEntry(x, 1)];
    var two: Services := map["/a" := BareEntry(x, 1), "a" := BareEntry(x, 5)];
    assert AfterHello(map[], first, 1) == one;
    assert AfterHello(one, again, 5) == two;
    KeyRoundTrip("/a");
    assert StartsWith("/a", "/") by { assert "/a"[..1] == "/"; }
    assert (two["a"].endpoints - {x}).Keys == {};
    assert Without(two, "a", x) == one;
    assert TickRemoves(two, 3, "/a", x);
    assert TickOutcome(two, 3, one);
    NothingExposed(one, ["/a"]);
    NothingExposed(two, ["/a", "a"]);
    events := [Hello(first, 1), Hello(again, 5), Tick(3)];
    states := [Init, State(one, map[]), State(two, map[]), State(one, map[])];
  }

  /**
    A run on which an outdated endpoint survives any number of ticks: it was
    announced under the prefix `/api`.
  */
  lemma OutdatedEndpointSurvives(x: string, ticks: nat) returns (events: seq<Event>, states: seq<State>)
    ensures IsRun(Settings(false, map[]), events, states) && |events| == ticks + 1
    ensures forall i :: 1 <= i < |events| ==> events[i] == Tick(3)
    ensures forall i :: 1 <= i < |states| ==> IsOutdated(states[i].services, 3, "/api/s", x)
  {
    var p := Bare("s", x).(prefix := "/api");
    assert KeyOf(p) == "/api" + "/" + "s" == "/api/s";
    var one := Slashed(x);
    assert AfterHello(map[], p, 1) == one;
    SlashedTick(x);
    NothingExposed(one, ["/api/s"]);
    events := [Hello(p, 1)] + seq(ticks, _ => Tick(3));
    states := [Init] + seq(ticks + 1, _ => State(one, map[]));
  }

  function Slashed(x: string): Services { map["/api/s" := BareEntry(x, 1)] }

  lemma SlashedTick(x: string)
    ensures TickOutcome(Slashed(x), 3, Slashed(x)) && IsOutdated(Slashed(x), 3, "/api/s", x)
  {
    KeyRoundTrip("/api/s");
    assert StartsWith("/api/s", "/") by { assert "/api/s"[..1] == "/"; }
    assert |TickKey("/api/s")| < |"/api/s"|;
    assert forall key, a :: !TickRemoves(Slashed(x), 3, key, a);
  }
}

/**
  The registry of services as the source keeps it (gateway/upstreamer/push/services.go,
  gateway/upstreamer/push/utils.go): services own endpoint objects, and the
  index handed to requests holds those same objects.
*/
module Directory {
  import opened Wrappers
  import opened Paths
  import opened Routes
  import opened Registry

  /** A new bucket holds its burst. */
  function FullBucket(a: Announced): nat { if a.burst < 0 then 0 else a.burst }

  predicate Admits(tokens: nat, burst: int) { tokens > 0 && burst > 0 }

  /** What is left when a token is taken: at most one less than the burst. */
  function OneTaken(tokens: nat, burst: int): nat
    requires Admits(tokens, burst)
  {
    (if burst < tokens then burst else tokens) - 1
  }

  /** A token bucket with the announced rates and those it currently runs at. */
  class RateLimiter {
    ghost const service: string
    ghost const address: string
    const identity: string
    const announced: Announced
    var limit: real
    var burst: int
    var tokens: nat

    constructor (ghost service: string, ghost address: string, identity: string, announced: Announced)
      ensures this.service == service && this.address == address && this.identity == identity
      ensures this.announced == announced && limit == announced.limit && burst == announced.burst
      ensures tokens == FullBucket(announced) && (announced.burst >= 0 ==> tokens == announced.burst)
    {
      this.service, this.address, this.identity := service, address, identity;
      this.announced := announced;
      limit, burst := announced.limit, announced.burst;
      tokens := FullBucket(announced);
    }

    /** Takes a token when there is one; no more of them count than the current burst. */
    method Allow() returns (ok: bool)
      modifies this`tokens
      ensures ok <==> old(tokens) > 0 && burst > 0
      ensures tokens == if ok then OneTaken(old(tokens), burst) else old(tokens)
    {
      ok := burst >= 1 && tokens >= 1;
      if ok {
        if tokens > burst {
          tokens := burst;
        }
        tokens := tokens - 1;
      }
    }
  }

  /** Asks a limiter until it refuses: it gives what it holds, and never more in a row than its burst. */
  method Exhaust(l: RateLimiter) returns (given: nat)
    modifies l`tokens
    ensures given == if l.burst <= 0 then 0 else if l.burst < old(l.tokens) then l.burst else old(l.tokens)
    ensures l.burst > 0 ==> l.tokens == 0
  {
    given := 0;
    var ok := true;
    while ok
      invariant l.burst <= 0 ==> given == 0 && l.tokens == old(l.tokens)
      invariant l.burst > 0 ==>
                  given + (if l.burst < l.tokens then l.burst else l.tokens) ==
                  if l.burst < old(l.tokens) then l.burst else old(l.tokens)
      invariant !ok ==> l.burst <= 0 || l.tokens == 0
      decreases ok, l.tokens
    {
      ok := l.Allow();
      if ok {
        given := given + 1;
      }
    }
  }

  class EndpointInfo {
    ghost const service: string
    const address: string
    const limiters: map<string, RateLimiter>
    var lastSeen: int
    var lastLimiterAdjust: int
    var lastLoad: real

    constructor (ghost service: string, address: string, limiters: map<string, RateLimiter>, now: int, load: real)
      ensures this.service == service && this.address == address && this.limiters == limiters
      ensures lastSeen == now && lastLoad == load && lastLimiterAdjust == 0
    {
      this.service, this.address, this.limiters := service, address, limiters;
      lastSeen, lastLoad, lastLimiterAdjust := now, load, 0;
    }
  }

  /**
    A `service` of the source. It is reachable only through the directory's
    map, so it is a record there; its endpoints are objects, because the index
    handed to requests shares them.
  */
  datatype Service = Service(name: string, routes: RouteMap, endpoints: map<string, EndpointInfo>)

  /** `l` is a permutation of the objects in `endpoints`. */
  ghost predicate Lists(l: seq<EndpointInfo>, endpoints: map<string, EndpointInfo>) {
    && (forall i :: 0 <= i < |l| ==> l[i].address in endpoints && endpoints[l[i].address] == l[i])
    && (forall i, j :: 0 <= i < j < |l| ==> l[i].address != l[j].address)
    && (forall a :: a in endpoints ==> endpoints[a] in l)
  }

  /** Instantiates the limiters a service announces for one endpoint. */
  method NewLimiters(ghost service: string, ghost address: string, announced: map<string, Announced>)
    returns (limiters: map<string, RateLimiter>)
    ensures limiters.Keys == announced.Keys
    ensures forall id :: id in limiters ==> fresh(limiters[id]) && LimiterOf(limiters[id], service, address, id)
                                            && limiters[id].announced == announced[id]
                                            && limiters[id].limit == announced[id].limit
                                            && limiters[id].burst == announced[id].burst
                                            && limiters[id].tokens == FullBucket(announced[id])
  {
    limiters := map[];
    var todo := announced.Keys;
    while todo != {}
      invariant todo <= announced.Keys && limiters.Keys == announced.Keys - todo
      invariant forall id :: id in limiters ==> fresh(limiters[id]) && LimiterOf(limiters[id], service, address, id)
                                                && limiters[id].announced == announced[id]
                                                && limiters[id].limit == announced[id].limit
                                                && limiters[id].burst == announced[id].burst
                                                && limiters[id].tokens == FullBucket(announced[id])
    {
      var id :| id in todo;
      var l := new RateLimiter(service, address, id, announced[id]);
      limiters := limiters[id := l];
      todo := todo - {id};
    }
  }

  ghost predicate LimiterOf(l: RateLimiter, service: string, address: string, identity: string) {
    l.service == service && l.address == address && l.identity == identity
  }

  /** `getEndpoints`: the endpoint objects, in any order. */
  method GetEndpoints(endpoints: map<string, EndpointInfo>) returns (out: seq<EndpointInfo>)
    requires forall a :: a in endpoints ==> endpoints[a].address == a
    ensures Lists(out, endpoints)
  {
    out := [];
    var todo := endpoints.Keys;
    while todo != {}
      invariant todo <= endpoints.Keys
      invariant forall i :: 0 <= i < |out| ==> out[i].address in endpoints && endpoints[out[i].address] == out[i]
      invariant forall i :: 0 <= i < |out| ==> out[i].address !in todo
      invariant forall a :: a in endpoints && a !in todo ==> endpoints[a] in out
      invariant forall i, j :: 0 <= i < j < |out| ==> out[i].address != out[j].address
    {
      var a :| a in todo;
      out := out + [endpoints[a]];
      todo := todo - {a};
    }
  }

  /** `outdatedEndpoints`: the addresses not heard of since the given date, in any order. */
  method OutdatedEndpoints(endpoints: map<string, EndpointInfo>, since: int) returns (out: seq<string>)
    ensures forall a :: a in out <==> a in endpoints && endpoints[a].lastSeen < since
  {
    out := [];
    var todo := endpoints.Keys;
    while todo != {}
      invariant todo <= endpoints.Keys
      invariant forall a :: a in out <==> a in endpoints && a !in todo && endpoints[a].lastSeen < since
    {
      var a :| a in todo;
      if endpoints[a].lastSeen < since {
        out := out + [a];
      }
      todo := todo - {a};
    }
  }

  // ---------------------------------------------------------------- records, objects and the registry they stand for

  type Records = map<string, Service>

  /** What is stored for an address is its own object, with its own limiters. */
  ghost predicate Owned(e: EndpointInfo, key: string, address: string, eps: set<EndpointInfo>, lims: set<RateLimiter>) {
    && e in eps && e.service == key && e.address == address
    && forall id :: id in e.limiters ==> e.limiters[id] in lims && LimiterOf(e.limiters[id], key, address, id)
  }

  ghost predicate EndpointOk(services: Records, key: string, a: string, eps: set<EndpointInfo>,
                             lims: set<RateLimiter>) {
    key in services && a in services[key].endpoints ==> Owned(services[key].endpoints[a], key, a, eps, lims)
  }

  predicate NameOk(services: Records, key: string) { key in services ==> services[key].name == key }

  /** Services are stored under their names, and no object stands for two endpoints. */
  ghost predicate Structured(services: Records, eps: set<EndpointInfo>, lims: set<RateLimiter>) {
    (forall key :: NameOk(services, key)) && forall key, a :: EndpointOk(services, key, a, eps, lims)
  }

  /** The records have the services, routes and addresses of the registry `r`. */
  ghost predicate SameShape(services: Records, r: Services) {
    r.Keys == services.Keys && forall key :: ShapeOk(services, r, key)
  }

  predicate ShapeOk(services: Records, r: Services, key: string) {
    key in services && key in r ==>
      r[key].routes == services[key].routes && r[key].endpoints.Keys == services[key].endpoints.Keys
  }

  ghost predicate StateOk(services: Records, r: Services, key: string, a: string, eps: set<EndpointInfo>)
    reads eps`lastSeen, eps`lastLoad
  {
    key in services && a in services[key].endpoints && services[key].endpoints[a] in eps ==>
      && key in r && a in r[key].endpoints
      && r[key].endpoints[a] == EndpointState(services[key].endpoints[a].lastSeen, services[key].endpoints[a].lastLoad)
  }

  /** The objects have its dates and loads. */
  ghost predicate SameStates(services: Records, r: Services, eps: set<EndpointInfo>)
    reads eps`lastSeen, eps`lastLoad
  {
    forall key, a :: StateOk(services, r, key, a, eps)
  }

  /** The records and their objects are a sound implementation of the registry `r`. */
  ghost predicate Implements(services: Records, r: Services, eps: set<EndpointInfo>, lims: set<RateLimiter>)
    reads eps`lastSeen, eps`lastLoad
  {
    Structured(services, eps, lims) && SameShape(services, r) && SameStates(services, r, eps)
  }

  lemma OwnAddresses(services: Records, key: string, eps: set<EndpointInfo>, lims: set<RateLimiter>)
    requires Structured(services, eps, lims) && key in services
    ensures forall a :: a in services[key].endpoints ==> services[key].endpoints[a].address == a
  {
    forall a | a in services[key].endpoints ensures services[key].endpoints[a].address == a {
      assert EndpointOk(services, key, a, eps, lims);
    }
  }

  function EndpointsOf(services: Records, key: string): map<string, EndpointInfo> {
    if key in services then services[key].endpoints else map[]
  }

  /** The records once `e` is registered, with the routes its hello brought. */
  function Installed(services: Records, key: string, routes: RouteMap, e: EndpointInfo): Records {
    services[key := Service(key, routes, EndpointsOf(services, key)[e.address := e])]
  }

  lemma InstalledIsStructured(services: Records, key: string, routes: RouteMap, e: EndpointInfo,
                              eps: set<EndpointInfo>, lims: set<RateLimiter>)
    requires Structured(services, eps, lims)
    requires Owned(e, key, e.address, {e}, e.limiters.Values)
    ensures Structured(Installed(services, key, routes, e), eps + {e}, lims + e.limiters.Values)
  {
    var now := Installed(services, key, routes, e);
    forall k ensures NameOk(now, k) {
      assert NameOk(services, k);
    }
    forall k, a ensures EndpointOk(now, k, a, eps + {e}, lims + e.limiters.Values) {
      assert EndpointOk(services, k, a, eps, lims);
    }
  }

  lemma InstalledShape(services: Records, r: Services, sp: Ping, now: int, e: EndpointInfo)
    requires SameShape(services, r) && !Registered(r, KeyOf(sp), sp.endpoint) && e.address == sp.endpoint
    ensures SameShape(Installed(services, KeyOf(sp), sp.routes, e), AfterHello(r, sp, now))
  {
    forall key ensures ShapeOk(Installed(services, KeyOf(sp), sp.routes, e), AfterHello(r, sp, now), key) {
      assert ShapeOk(services, r, key);
    }
  }

  lemma InstalledImplements(services: Records, r: Services, sp: Ping, now: int, e: EndpointInfo,
                            eps: set<EndpointInfo>, lims: set<RateLimiter>)
    requires Implements(services, r, eps, lims) && !Registered(r, KeyOf(sp), sp.endpoint)
    requires Owned(e, KeyOf(sp), sp.endpoint, {e}, e.limiters.Values)
    requires EndpointState(now, sp.load) == EndpointState(e.lastSeen, e.lastLoad)
    ensures Implements(Installed(services, KeyOf(sp), sp.routes, e), AfterHello(r, sp, now), eps + {e},
                       lims + e.limiters.Values)
  {
    InstalledIsStructured(services, KeyOf(sp), sp.routes, e, eps, lims);
    InstalledShape(services, r, sp, now, e);
    var records, s := Installed(services, KeyOf(sp), sp.routes, e), AfterHello(r, sp, now);
    forall k, a ensures StateOk(records, s, k, a, eps + {e}) {
      assert StateOk(services, r, k, a, eps) && EndpointOk(services, k, a, eps, lims);
    }
  }

  /** The records once an endpoint is gone, and its service with the last one. */
  function Removed(services: Records, key: string, address: string): Records
    requires key in services
  {
    var left := services[key].endpoints - {address};
    if left.Keys == {} then services - {key} else services[key := services[key].(endpoints := left)]
  }

  lemma RemovedIsStructured(services: Records, key: string, address: string, eps: set<EndpointInfo>,
                            lims: set<RateLimiter>)
    requires Structured(services, eps, lims) && key in services
    ensures Structured(Removed(services, key, address), eps, lims)
  {
    var left := Removed(services, key, address);
    forall k ensures NameOk(left, k) {
      assert NameOk(services, k);
    }
    forall k, a ensures EndpointOk(left, k, a, eps, lims) {
      assert EndpointOk(services, k, a, eps, lims);
    }
  }

  lemma RemovedShape(services: Records, r: Services, key: string, address: string)
    requires SameShape(services, r) && Registered(r, key, address)
    ensures SameShape(Removed(services, key, address), Without(r, key, address))
  {
    assert ShapeOk(services, r, key);
    assert (services[key].endpoints - {address}).Keys == (r[key].endpoints - {address}).Keys;
    forall k ensures ShapeOk(Removed(services, key, address), Without(r, key, address), k) {
      assert ShapeOk(services, r, k);
    }
  }

  lemma RemovedImplements(services: Records, r: Services, key: string, address: string,
                          eps: set<EndpointInfo>, lims: set<RateLimiter>)
    requires Implements(services, r, eps, lims) && Registered(r, key, address)
    ensures Implements(Removed(services, key, address), Without(r, key, address), eps, lims)
  {
    RemovedIsStructured(services, key, address, eps, lims);
    RemovedShape(services, r, key, address);
    forall k, a ensures StateOk(Removed(services, key, address), Without(r, key, address), k, a, eps) {
      assert StateOk(services, r, k, a, eps);
    }
  }

  function Poked(s: Services, key: string, address: string, e: EndpointState): Services
    requires Registered(s, key, address)
  {
    s[key := s[key].(endpoints := s[key].endpoints[address := e])]
  }

  /** `pokeEndpoint` on a registered endpoint: the object changes, the records do not. */
  method PokeEndpoint(services: Records, key: string, address: string, load: real, now: int,
                      ghost r: Services, ghost eps: set<EndpointInfo>, ghost lims: set<RateLimiter>)
    requires Implements(services, r, eps, lims) && Registered(r, key, address)
    modifies eps`lastSeen, eps`lastLoad
    ensures Implements(services, Poked(r, key, address, EndpointState(now, load)), eps, lims)
  {
    assert ShapeOk(services, r, key) && EndpointOk(services, key, address, eps, lims);
    var e := services[key].endpoints[address];
    ghost var want := Poked(r, key, address, EndpointState(now, load));
    forall k ensures ShapeOk(services, want, k) {
      assert ShapeOk(services, r, k);
    }
    e.lastSeen := now;
    e.lastLoad := load;
    forall k, a ensures StateOk(services, want, k, a, eps) {
      assert EndpointOk(services, k, a, eps, lims) && old(StateOk(services, r, k, a, eps));
    }
  }

  ghost predicate AtAnnouncedRates(e: EndpointInfo)
    reads e.limiters.Values
  {
    forall id :: id in e.limiters ==>
      e.limiters[id].limit == e.limiters[id].announced.limit && e.limiters[id].burst == e.limiters[id].announced.burst
  }

  // ---------------------------------------------------------------- the published index

  type Index = map<string, seq<EndpointInfo>>

  ghost predicate Exposing(cfg: Settings, services: Records, key: string, api: string) {
    key in services && Exposes(cfg, key, services[key].routes, api)
  }

  /** In this order of the services, position `i` is the last one to write the key `api`. */
  ghost predicate WritesLast(cfg: Settings, services: Records, order: seq<string>, api: string, i: int) {
    && 0 <= i < |order| && Exposing(cfg, services, order[i], api)
    && forall j :: i < j < |order| ==> !Exposing(cfg, services, order[j], api)
  }

  /** Each key has the endpoint objects of the service that wrote it last. */
  ghost predicate WrittenIn(cfg: Settings, services: Records, order: seq<string>, apis: Index) {
    forall api :: HasLast(cfg, services, order, apis, api)
  }

  ghost predicate HasLast(cfg: Settings, services: Records, order: seq<string>, apis: Index, api: string) {
    api in apis ==>
      exists i :: WritesLast(cfg, services, order, api, i) && Lists(apis[api], services[order[i]].endpoints)
  }

  ghost predicate OrderedIndex(cfg: Settings, services: Records, apis: Index) {
    exists order :: IsListing(order, services.Keys) && WrittenIn(cfg, services, order, apis)
  }

  /** Exactly the exposed keys, each with the endpoint objects of one service that exposes it, as one order decides. */
  ghost predicate IsObjectIndex(cfg: Settings, services: Records, apis: Index) {
    (forall api :: KeyOk(cfg, services, apis, api)) && OrderedIndex(cfg, services, apis)
  }

  ghost predicate KeyOk(cfg: Settings, services: Records, apis: Index, api: string) {
    api in apis <==> exists key :: Exposing(cfg, services, key, api)
  }

  lemma ObjectIndexLists(cfg: Settings, services: Records, apis: Index, api: string) returns (key: string)
    requires IsObjectIndex(cfg, services, apis) && api in apis
    ensures Exposing(cfg, services, key, api) && Lists(apis[api], services[key].endpoints)
  {
    var order :| IsListing(order, services.Keys) && WrittenIn(cfg, services, order, apis);
    assert HasLast(cfg, services, order, apis, api);
    var i :| WritesLast(cfg, services, order, api, i) && Lists(apis[api], services[order[i]].endpoints);
    key := order[i];
  }

  function AddressesOf(l: seq<EndpointInfo>): (r: seq<string>)
    ensures |r| == |l| && forall i :: 0 <= i < |l| ==> r[i] == l[i].address
  {
    seq(|l|, i requires 0 <= i < |l| => l[i].address)
  }

  /** What the index shows: for each key the addresses of its endpoints. */
  function IndexView(apis: Index): map<string, seq<string>> {
    map api | api in apis :: AddressesOf(apis[api])
  }

  lemma ListingShows(l: seq<EndpointInfo>, endpoints: map<string, EndpointInfo>)
    requires Lists(l, endpoints) && forall a :: a in endpoints ==> endpoints[a].address == a
    ensures IsListing(AddressesOf(l), endpoints.Keys)
  {
  }

  /** An index of objects shows as an index of the registry. */
  lemma ObjectIndexShows(cfg: Settings, services: Records, apis: Index, r: Services,
                         eps: set<EndpointInfo>, lims: set<RateLimiter>)
    requires IsObjectIndex(cfg, services, apis) && SameShape(services, r) && Structured(services, eps, lims)
    ensures IsIndex(cfg, r, IndexView(apis))
  {
    forall key, api ensures Exposing(cfg, services, key, api) <==> Serves(cfg, r, key, api) {
      ServesIsExposing(cfg, services, r, key, api);
    }
    forall api ensures api in IndexView(apis) <==> exists key :: Serves(cfg, r, key, api) {
      assert KeyOk(cfg, services, apis, api);
    }
    var order :| IsListing(order, services.Keys) && WrittenIn(cfg, services, order, apis);
    forall api | api in apis
      ensures exists i :: Wins(cfg, r, order, api, i) && IsListing(IndexView(apis)[api], r[order[i]].endpoints.Keys)
    {
      assert HasLast(cfg, services, order, apis, api);
      var i :| WritesLast(cfg, services, order, api, i) && Lists(apis[api], services[order[i]].endpoints);
      OwnAddresses(services, order[i], eps, lims);
      ListingShows(apis[api], services[order[i]].endpoints);
      assert ShapeOk(services, r, order[i]);
      assert Wins(cfg, r, order, api, i);
    }
    assert WonBy(cfg, r, order, IndexView(apis));
  }

  lemma ServesIsExposing(cfg: Settings, services: Records, r: Services, key: string, api: string)
    requires SameShape(services, r)
    ensures Serves(cfg, r, key, api) <==> Exposing(cfg, services, key, api)
  {
    assert ShapeOk(services, r, key);
  }

  /** Points one key of the index at the endpoints of a service. */
  ghost predicate Updated(apis: Index, after: Index, endpoints: map<string, EndpointInfo>, written: set<string>) {
    && after.Keys == apis.Keys + written
    && (forall api :: api in written ==> Lists(after[api], endpoints))
    && (forall api :: api in apis && api !in written ==> after[api] == apis[api])
  }

  /** The keys the routes of one version expose. */
  ghost predicate WritesRoutes(cfg: Settings, prefix: string, routes: seq<RouteInfo>, written: set<string>) {
    && (forall i :: 0 <= i < |routes| && Visible(cfg, routes[i]) ==> prefix + "/" + routes[i].identity in written)
    && (forall api :: api in written ==>
          exists i :: 0 <= i < |routes| && Visible(cfg, routes[i]) && api == prefix + "/" + routes[i].identity)
  }

  method AddVersion(cfg: Settings, prefix: string, routes: seq<RouteInfo>, endpoints: map<string, EndpointInfo>,
                    apis: Index)
    returns (after: Index, ghost written: set<string>)
    requires forall a :: a in endpoints ==> endpoints[a].address == a
    ensures Updated(apis, after, endpoints, written) && WritesRoutes(cfg, prefix, routes, written)
  {
    after, written := apis, {};
    for i := 0 to |routes|
      invariant Updated(apis, after, endpoints, written) && WritesRoutes(cfg, prefix, routes[..i], written)
    {
      ghost var before := written;
      if Visible(cfg, routes[i]) {
        var eps := GetEndpoints(endpoints);
        after := after[prefix + "/" + routes[i].identity := eps];
        written := written + {prefix + "/" + routes[i].identity};
      }
      WrittenOneMore(cfg, prefix, routes, i, before, written);
    }
    assert routes[..|routes|] == routes;
  }

  lemma WrittenOneMore(cfg: Settings, prefix: string, routes: seq<RouteInfo>, i: nat, before: set<string>,
                       after: set<string>)
    requires i < |routes| && WritesRoutes(cfg, prefix, routes[..i], before)
    requires after == if Visible(cfg, routes[i]) then before + {prefix + "/" + routes[i].identity} else before
    ensures WritesRoutes(cfg, prefix, routes[..i + 1], after)
  {
    var longer := routes[..i + 1];
    assert forall j :: 0 <= j < i ==> longer[j] == routes[..i][j];
    assert longer[i] == routes[i];
    forall api | api in after
      ensures exists j :: 0 <= j < |longer| && Visible(cfg, longer[j]) && api == prefix + "/" + longer[j].identity
    {
      if api in before {
        var j :| 0 <= j < i && Visible(cfg, routes[..i][j]) && api == prefix + "/" + routes[..i][j].identity;
        assert longer[j] == routes[..i][j];
      } else {
        assert longer[i] == routes[i];
      }
    }
  }

  ghost predicate WritesVersions(cfg: Settings, prefix: string, routes: RouteMap, versions: set<int>,
                                 written: set<string>) {
    && (forall v, i :: v in routes && v in versions && 0 <= i < |routes[v]| && Visible(cfg, routes[v][i]) ==>
          prefix + "/" + routes[v][i].identity in written)
    && (forall api :: api in written ==>
          exists v, i :: v in routes && 0 <= i < |routes[v]| && Visible(cfg, routes[v][i])
                         && api == prefix + "/" + routes[v][i].identity)
  }

  lemma UpdatedTwice(a: Index, b: Index, c: Index, endpoints: map<string, EndpointInfo>, w: set<string>, x: set<string>)
    requires Updated(a, b, endpoints, w) && Updated(b, c, endpoints, x)
    ensures Updated(a, c, endpoints, w + x)
  {
  }

  lemma OneMoreVersion(cfg: Settings, prefix: string, routes: RouteMap, done: set<int>, v: int, written: set<string>,
                       more: set<string>)
    requires WritesVersions(cfg, prefix, routes, done, written)
    requires v in routes && WritesRoutes(cfg, prefix, routes[v], more)
    ensures WritesVersions(cfg, prefix, routes, done + {v}, written + more)
  {
    forall api | api in written + more
      ensures exists u, i :: u in routes && 0 <= i < |routes[u]| && Visible(cfg, routes[u][i])
                             && api == prefix + "/" + routes[u][i].identity
    {
      if api in more {
        var i :| 0 <= i < |routes[v]| && Visible(cfg, routes[v][i]) && api == prefix + "/" + routes[v][i].identity;
      }
    }
  }

  /** Writes the keys of the routes of one service, its versions taken in any order. */
  method AddRoutesOf(cfg: Settings, prefix: string, s: Service, apis: Index)
    returns (after: Index, ghost written: set<string>)
    requires forall a :: a in s.endpoints ==> s.endpoints[a].address == a
    ensures Updated(apis, after, s.endpoints, written)
    ensures WritesVersions(cfg, prefix, s.routes, s.routes.Keys, written)
  {
    after, written := apis, {};
    var todo := s.routes.Keys;
    while todo != {}
      invariant todo <= s.routes.Keys && Updated(apis, after, s.endpoints, written)
      invariant WritesVersions(cfg, prefix, s.routes, s.routes.Keys - todo, written)
    {
      var v := AnyOf(todo);
      var next, more := AddVersion(cfg, prefix, s.routes[v], s.endpoints, after);
      OneMoreVersion(cfg, prefix, s.routes, s.routes.Keys - todo, v, written, more);
      UpdatedTwice(apis, after, next, s.endpoints, written, more);
      assert s.routes.Keys - (todo - {v}) == (s.routes.Keys - todo) + {v};
      after, written, todo := next, written + more, todo - {v};
    }
    assert s.routes.Keys - todo == s.routes.Keys;
  }

  /** Writes the keys of one service: its routes, then its event API. */
  method AddService(cfg: Settings, key: string, s: Service, apis: Index)
    returns (after: Index, ghost written: set<string>)
    requires forall a :: a in s.endpoints ==> s.endpoints[a].address == a
    ensures Updated(apis, after, s.endpoints, written)
    ensures forall api :: api in written <==> Exposes(cfg, key, s.routes, api)
  {
    var e := ExtractPrefix(key);
    after, written := AddRoutesOf(cfg, e.prefix, s, apis);
    assert forall api :: api in written <==> ExposesRoute(cfg, key, s.routes, api);
    if e.name in cfg.events {
      var eps := GetEndpoints(s.endpoints);
      var api := e.prefix + "/" + cfg.events[e.name];
      var next := after[api := eps];
      UpdatedTwice(apis, after, next, s.endpoints, written, {api});
      after, written := next, written + {api};
    }
  }

  /** The keys written so far are those of the services looked at so far, each as the last of them wrote it. */
  ghost predicate PartialIndex(cfg: Settings, services: Records, order: seq<string>, apis: Index) {
    (forall api :: WrittenOk(cfg, services, order, apis, api)) && WrittenIn(cfg, services, order, apis)
  }

  ghost predicate WrittenOk(cfg: Settings, services: Records, order: seq<string>, apis: Index, api: string) {
    api in apis <==> exists i :: 0 <= i < |order| && Exposing(cfg, services, order[i], api)
  }

  lemma StillLast(cfg: Settings, services: Records, order: seq<string>, key: string, api: string, i: int)
    requires WritesLast(cfg, services, order, api, i) && !Exposing(cfg, services, key, api)
    ensures WritesLast(cfg, services, order + [key], api, i)
  {
    var longer := order + [key];
    forall j | i < j < |longer| ensures !Exposing(cfg, services, longer[j], api) {
      assert j < |order| ==> longer[j] == order[j];
    }
  }

  lemma ExposedOneMore(cfg: Settings, services: Records, order: seq<string>, key: string, api: string)
    ensures (exists i :: 0 <= i < |order + [key]| && Exposing(cfg, services, (order + [key])[i], api)) <==>
            Exposing(cfg, services, key, api) || exists i :: 0 <= i < |order| && Exposing(cfg, services, order[i], api)
  {
    var longer := order + [key];
    assert longer[|order|] == key;
    if i :| 0 <= i < |order| && Exposing(cfg, services, order[i], api) {
      assert longer[i] == order[i];
    }
    if i :| 0 <= i < |longer| && Exposing(cfg, services, longer[i], api) {
      assert i < |order| ==> longer[i] == order[i];
    }
  }

  lemma LastOneMore(cfg: Settings, services: Records, order: seq<string>, key: string, apis: Index, after: Index,
                    written: set<string>, api: string)
    requires HasLast(cfg, services, order, apis, api) && key in services
    requires Updated(apis, after, services[key].endpoints, written)
    requires api in written <==> Exposing(cfg, services, key, api)
    ensures HasLast(cfg, services, order + [key], after, api)
  {
    var longer := order + [key];
    if api in written {
      assert WritesLast(cfg, services, longer, api, |order|);
    } else if api in after {
      var i :| WritesLast(cfg, services, order, api, i) && Lists(apis[api], services[order[i]].endpoints);
      StillLast(cfg, services, order, key, api, i);
      assert longer[i] == order[i];
    }
  }

  lemma OneMoreService(cfg: Settings, services: Records, order: seq<string>, key: string, apis: Index, after: Index,
                       written: set<string>)
    requires PartialIndex(cfg, services, order, apis) && key in services
    requires Updated(apis, after, services[key].endpoints, written)
    requires forall api :: api in written <==> Exposing(cfg, services, key, api)
    ensures PartialIndex(cfg, services, order + [key], after)
  {
    forall api ensures HasLast(cfg, services, order + [key], after, api) {
      assert HasLast(cfg, services, order, apis, api);
      LastOneMore(cfg, services, order, key, apis, after, written, api);
    }
    forall api ensures WrittenOk(cfg, services, order + [key], after, api) {
      assert WrittenOk(cfg, services, order, apis, api);
      ExposedOneMore(cfg, services, order, key, api);
    }
  }

  lemma WholeIndex(cfg: Settings, services: Records, order: seq<string>, apis: Index)
    requires PartialIndex(cfg, services, order, apis) && IsListing(order, services.Keys)
    ensures IsObjectIndex(cfg, services, apis)
  {
    forall api ensures KeyOk(cfg, services, apis, api) {
      assert WrittenOk(cfg, services, order, apis, api);
      if key :| Exposing(cfg, services, key, api) {
        assert key in order;
        var i :| 0 <= i < |order| && order[i] == key;
      }
    }
  }

  lemma EmptyIndex(cfg: Settings)
    ensures IsObjectIndex(cfg, map[], map[])
  {
    WholeIndex(cfg, map[], [], map[]);
  }

  /** `resyncRoutes`: the services taken in any order, a later one overwriting the keys of an earlier one. */
  method ResyncRoutes(cfg: Settings, services: Records, ghost eps: set<EndpointInfo>, ghost lims: set<RateLimiter>)
    returns (apis: Index)
    requires Structured(services, eps, lims)
    ensures IsObjectIndex(cfg, services, apis)
  {
    apis := map[];
    var todo := services.Keys;
    ghost var order: seq<string> := [];
    while todo != {}
      invariant todo <= services.Keys && IsListing(order, services.Keys - todo)
      invariant PartialIndex(cfg, services, order, apis)
    {
      var key :| key in todo;
      OwnAddresses(services, key, eps, lims);
      var after, written := AddService(cfg, key, services[key], apis);
      OneMoreService(cfg, services, order, key, apis, after, written);
      apis, order := after, order + [key];
      todo := todo - {key};
    }
    WholeIndex(cfg, services, order, apis);
  }
}

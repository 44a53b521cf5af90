/**
  Runs of the whole upstreamer (gateway/upstreamer/push/upstreamer.go): service
  events, peer events, latency samples and requests, interleaved in any way,
  each as one step.
*/
module Runs {
  import opened Wrappers
  import opened Paths
  import opened Registry
  import opened Balancer
  import P = Peers

  function Gone(services: Services, key: string, address: string): set<string> {
    if Registered(services, key, address) then {address} else {}
  }

  /** Registry and index, peers, the samples of the latency book, and the names of all hellos. */
  datatype World = World(state: State, gateway: P.Gateway, samples: map<string, seq<real>>, hellos: seq<string>)

  datatype Action =
    | Service(event: Event)
    | Peer(timed: P.Timed)
    | Sample(address: string, micros: real)
    | Request(path: string)

  /** A removal takes the samples of its address with it, and a tick those of every outdated address. */
  function SamplesAfter(samples: map<string, seq<real>>, services: Services, event: Event): map<string, seq<real>> {
    match event
    case Hello(_, _) => samples
    case Goodbye(key, address) => samples - Gone(services, key, address)
    case Tick(since) => samples - OutdatedAddresses(services, since)
  }

  function HellosAfter(hellos: seq<string>, event: Event): seq<string> {
    match event
    case Hello(p, _) => hellos + [p.name]
    case _ => hellos
  }

  function SamplesOf(samples: map<string, seq<real>>, address: string): seq<real> {
    if address in samples then samples[address] else []
  }

  ghost predicate AnswerFor(cfg: Settings, services: Services, path: string, answer: Option<Answer>) {
    && answer.Some?
    && match RoutingKey(path)
       case None => answer.value == Panic
       case Some(api) => Fits(cfg, services, api, answer.value)
  }

  ghost predicate Follows(cfg: Settings, peerCfg: P.Config, w: World, action: Action, answer: Option<Answer>,
                          v: World) {
    match action
    case Service(event) =>
      && Step(cfg, w.state, event, v.state) && v.gateway == w.gateway
      && v.samples == SamplesAfter(w.samples, w.state.services, event)
      && v.hellos == HellosAfter(w.hellos, event)
    case Peer(timed) => v == w.(gateway := P.After(peerCfg, w.gateway, timed))
    case Sample(address, micros) => v == w.(samples := w.samples[address := SamplesOf(w.samples, address) + [micros]])
    case Request(path) => v == w && AnswerFor(cfg, w.state.services, path, answer)
  }

  ghost predicate IsWholeRun(cfg: Settings, peerCfg: P.Config, actions: seq<Action>, answers: seq<Option<Answer>>,
                             worlds: seq<World>) {
    && |worlds| == |actions| + 1 && |answers| == |actions|
    && forall i :: 0 <= i < |actions| ==> Follows(cfg, peerCfg, worlds[i], actions[i], answers[i], worlds[i + 1])
  }

  /** The dates of the peer steps increase, and are later than `start`. */
  predicate ClockRuns(actions: seq<Action>, start: int) {
    && (forall i :: 0 <= i < |actions| && actions[i].Peer? ==> start < actions[i].timed.at)
    && (forall i, j :: 0 <= i < j < |actions| && actions[i].Peer? && actions[j].Peer? ==>
          actions[i].timed.at < actions[j].timed.at)
  }

  lemma WholeRunSnoc(cfg: Settings, peerCfg: P.Config, actions: seq<Action>, n: nat, answers: seq<Option<Answer>>,
                     worlds: seq<World>, answer: Option<Answer>, w: World)
    requires n < |actions| && IsWholeRun(cfg, peerCfg, actions[..n], answers, worlds)
    requires Follows(cfg, peerCfg, worlds[n], actions[n], answer, w)
    ensures IsWholeRun(cfg, peerCfg, actions[..n + 1], answers + [answer], worlds + [w])
  {
    var longer, answersNow, worldsNow := actions[..n + 1], answers + [answer], worlds + [w];
    forall i | 0 <= i < n + 1 ensures Follows(cfg, peerCfg, worldsNow[i], longer[i], answersNow[i], worldsNow[i + 1]) {
      if i < n {
        assert Follows(cfg, peerCfg, worlds[i], actions[..n][i], answers[i], worlds[i + 1]);
      }
    }
  }

  lemma ClockGoesOn(actions: seq<Action>, n: nat, before: int, after: int)
    requires n < |actions| && ClockRuns(actions[n..], before)
    requires after == before || (actions[n].Peer? && after == actions[n].timed.at)
    ensures ClockRuns(actions[n + 1..], after)
  {
    var now, next := actions[n..], actions[n + 1..];
    assert forall i :: 0 <= i < |next| ==> next[i] == now[i + 1];
    assert now[0] == actions[n];
  }

  // ---------------------------------------------------------------- what holds on every whole run

  predicate Fresh(w: World) {
    w.state == Init && w.gateway == P.NewGateway(w.gateway.rid) && w.samples == map[] && w.hellos == []
  }

  ghost predicate WorldInv(cfg: Settings, peerCfg: P.Config, w: World) {
    Inv(cfg, w.state) && P.Inv(peerCfg, w.gateway)
  }

  lemma FollowsKeepsInv(cfg: Settings, peerCfg: P.Config, w: World, action: Action, answer: Option<Answer>, v: World)
    requires WorldInv(cfg, peerCfg, w) && Follows(cfg, peerCfg, w, action, answer, v)
    ensures WorldInv(cfg, peerCfg, v)
  {
    match action
    case Service(event) => StepKeepsInv(cfg, w.state, event, v.state);
    case Peer(timed) => P.StepKeepsInv(peerCfg, w.gateway, timed);
    case Sample(_, _) =>
    case Request(_) =>
  }

  /** Whatever is interleaved, the index is current, services have endpoints, and the rate cache follows the peers. */
  lemma {:induction false} WholeRunKeepsInv(cfg: Settings, peerCfg: P.Config, actions: seq<Action>,
                                            answers: seq<Option<Answer>>, worlds: seq<World>, n: nat)
    requires IsWholeRun(cfg, peerCfg, actions, answers, worlds) && Fresh(worlds[0]) && n < |worlds|
    ensures WorldInv(cfg, peerCfg, worlds[n])
  {
    NoServicesNoKeys(cfg);
    if n > 0 {
      WholeRunKeepsInv(cfg, peerCfg, actions, answers, worlds, n - 1);
      FollowsKeepsInv(cfg, peerCfg, worlds[n - 1], actions[n - 1], answers[n - 1], worlds[n]);
    }
  }

  /** A hello or goodbye of the endpoint. */
  predicate SpeaksOf(x: Action, key: string, address: string) {
    x.Service? && match x.event
                  case Hello(p, _) => KeyOf(p) == key && p.endpoint == address
                  case Goodbye(k, a) => k == key && a == address
                  case Tick(_) => false
  }

  predicate IsHello(x: Action, key: string, address: string, heard: EndpointState) {
    && SpeaksOf(x, key, address) && x.event.Hello?
    && heard == EndpointState(x.event.now, x.event.ping.load)
  }

  /** Among the first `n` actions the last word of the endpoint is the hello at `i`. */
  predicate LastHello(actions: seq<Action>, n: nat, key: string, address: string, heard: EndpointState, i: int) {
    && 0 <= i < n <= |actions| && IsHello(actions[i], key, address, heard)
    && forall j :: i < j < n ==> !SpeaksOf(actions[j], key, address)
  }

  /** Where an endpoint's entry comes from, for each kind of event. */
  lemma EntryAfter(cfg: Settings, s: State, e: Event, t: State, key: string, address: string)
    requires Inv(cfg, s) && Step(cfg, s, e, t) && Registered(t.services, key, address)
    ensures || IsHello(Service(e), key, address, t.services[key].endpoints[address])
            || (!SpeaksOf(Service(e), key, address) && Registered(s.services, key, address)
                && t.services[key].endpoints[address] == s.services[key].endpoints[address])
  {
    match e
    case Hello(p, now) =>
    case Goodbye(k, a) =>
      if Registered(s.services, k, a) { WithoutKeepsEndpoints(s.services, k, a); }
    case Tick(since) =>
      if t.services != s.services {
        var k, a :| TickRemoves(s.services, since, k, a) && t.services == Without(s.services, TickKey(k), a);
        WithoutKeepsEndpoints(s.services, TickKey(k), a);
      }
  }

  lemma EntryFollows(cfg: Settings, peerCfg: P.Config, w: World, action: Action, answer: Option<Answer>, v: World,
                     key: string, address: string)
    requires WorldInv(cfg, peerCfg, w) && Follows(cfg, peerCfg, w, action, answer, v)
              && Registered(v.state.services, key, address)
    ensures || IsHello(action, key, address, v.state.services[key].endpoints[address])
            || (!SpeaksOf(action, key, address) && Registered(w.state.services, key, address)
                && v.state.services[key].endpoints[address] == w.state.services[key].endpoints[address])
  {
    if action.Service? {
      EntryAfter(cfg, w.state, action.event, v.state, key, address);
    }
  }

  /** On every run a registered endpoint is there because its last word was a hello, with that hello's date and load. */
  lemma {:induction false} RegisteredWereHeard(cfg: Settings, peerCfg: P.Config, actions: seq<Action>,
                                               answers: seq<Option<Answer>>, worlds: seq<World>, n: nat, key: string,
                                               address: string)
    returns (i: int)
    requires IsWholeRun(cfg, peerCfg, actions, answers, worlds) && Fresh(worlds[0]) && n < |worlds|
    requires Registered(worlds[n].state.services, key, address)
    ensures LastHello(actions, n, key, address, worlds[n].state.services[key].endpoints[address], i)
  {
    var m := n - 1;
    WholeRunKeepsInv(cfg, peerCfg, actions, answers, worlds, m);
    EntryFollows(cfg, peerCfg, worlds[m], actions[m], answers[m], worlds[n], key, address);
    if IsHello(actions[m], key, address, worlds[n].state.services[key].endpoints[address]) {
      i := m;
    } else {
      i := RegisteredWereHeard(cfg, peerCfg, actions, answers, worlds, m, key, address);
    }
  }

  /** No tick since the hello at `i` came when the endpoint counted as outdated. */
  predicate NotOutdatedSince(actions: seq<Action>, n: nat, i: int, t: int) {
    n <= |actions| && forall j :: 0 <= i < j < n && actions[j].Service? && actions[j].event.Tick? ==>
      actions[j].event.since <= t
  }

  /** Nothing of the first `n` actions announces the endpoint with one more slash before its key. */
  predicate NotOneSlashDeeper(actions: seq<Action>, n: nat, key: string, address: string) {
    n <= |actions| && forall i :: 0 <= i < n && actions[i].Service? && actions[i].event.Hello? ==>
      !SpeaksOf(actions[i], "/" + key, address)
  }

  lemma NotDeeper(cfg: Settings, peerCfg: P.Config, actions: seq<Action>, answers: seq<Option<Answer>>,
                  worlds: seq<World>, n: nat, key: string, address: string)
    requires IsWholeRun(cfg, peerCfg, actions, answers, worlds) && Fresh(worlds[0]) && n < |worlds|
    requires NotOneSlashDeeper(actions, n, key, address)
    ensures !Registered(worlds[n].state.services, "/" + key, address)
  {
    if Registered(worlds[n].state.services, "/" + key, address) {
      var i := RegisteredWereHeard(cfg, peerCfg, actions, answers, worlds, n, "/" + key, address);
    }
  }

  predicate HelloOf(x: Action, name: string) { x.Service? && x.event.Hello? && x.event.ping.name == name }

  /** The names recorded are those of the hellos so far. */
  lemma {:induction false} HellosAreHeard(cfg: Settings, peerCfg: P.Config, actions: seq<Action>,
                                          answers: seq<Option<Answer>>, worlds: seq<World>, n: nat, name: string)
    requires IsWholeRun(cfg, peerCfg, actions, answers, worlds) && Fresh(worlds[0]) && n < |worlds|
    ensures name in worlds[n].hellos <==> exists i :: 0 <= i < n && HelloOf(actions[i], name)
  {
    if n > 0 {
      var m := n - 1;
      HellosAreHeard(cfg, peerCfg, actions, answers, worlds, m, name);
      assert Follows(cfg, peerCfg, worlds[m], actions[m], answers[m], worlds[n]);
      assert name in worlds[n].hellos <==> name in worlds[m].hellos || HelloOf(actions[m], name);
    }
  }

  lemma EntryStays(cfg: Settings, s: State, e: Event, t: State, key: string, address: string)
    requires Inv(cfg, s) && Step(cfg, s, e, t) && !Registered(s.services, "/" + key, address)
    requires Registered(s.services, key, address) && !SpeaksOf(Service(e), key, address)
    requires e.Tick? ==> e.since <= s.services[key].endpoints[address].lastSeen
    ensures Registered(t.services, key, address)
    ensures t.services[key].endpoints[address] == s.services[key].endpoints[address]
  {
    match e
    case Hello(p, now) =>
    case Goodbye(k, a) =>
      if Registered(s.services, k, a) { WithoutKeepsEndpoints(s.services, k, a); }
    case Tick(since) =>
      if k, a :| TickRemoves(s.services, since, k, a) && t.services == Without(s.services, TickKey(k), a) {
        WithoutKeepsEndpoints(s.services, TickKey(k), a);
        KeyRoundTrip(k);
        SlashBefore(k);
      }
  }

  /** The other way round: once heard, an endpoint stays until it says goodbye or a tick finds it outdated. */
  lemma {:induction false} HeardEndpointsStay(cfg: Settings, peerCfg: P.Config, actions: seq<Action>,
                                              answers: seq<Option<Answer>>, worlds: seq<World>, n: nat, key: string,
                                              address: string, heard: EndpointState, i: int)
    requires IsWholeRun(cfg, peerCfg, actions, answers, worlds) && Fresh(worlds[0]) && n < |worlds|
    requires NotOneSlashDeeper(actions, n, key, address)
    requires LastHello(actions, n, key, address, heard, i) && NotOutdatedSince(actions, n, i, heard.lastSeen)
    ensures Registered(worlds[n].state.services, key, address)
    ensures worlds[n].state.services[key].endpoints[address] == heard
  {
    var m := n - 1;
    assert Follows(cfg, peerCfg, worlds[m], actions[m], answers[m], worlds[n]);
    if i < m {
      HeardEndpointsStay(cfg, peerCfg, actions, answers, worlds, m, key, address, heard, i);
      if actions[m].Service? {
        WholeRunKeepsInv(cfg, peerCfg, actions, answers, worlds, m);
        NotDeeper(cfg, peerCfg, actions, answers, worlds, m, key, address);
        EntryStays(cfg, worlds[m].state, actions[m].event, worlds[n].state, key, address);
      }
    }
  }

  // ---------------------------------------------------------------- where the routes come from

  /** A hello on `key` from an endpoint that is not registered when it comes. */
  predicate Registers(w: World, x: Action, key: string) {
    && x.Service? && x.event.Hello? && KeyOf(x.event.ping) == key
    && !(key in w.state.services && x.event.ping.endpoint in w.state.services[key].endpoints)
  }

  predicate LastRegistration(actions: seq<Action>, worlds: seq<World>, n: nat, key: string, i: int) {
    && 0 <= i < n <= |actions| && |worlds| == |actions| + 1 && Registers(worlds[i], actions[i], key)
    && forall j :: i < j < n ==> !Registers(worlds[j], actions[j], key)
  }

  lemma RoutesMove(s: Services, e: Event, t: Services, key: string)
    requires Moves(s, e, t) && key in t
    ensures var added := e.Hello? && KeyOf(e.ping) == key && !(key in s && e.ping.endpoint in s[key].endpoints);
            && (added ==> t[key].routes == e.ping.routes)
            && (!added ==> key in s && t[key].routes == s[key].routes)
  {
    if e.Tick? && t != s {
      var k, a :| TickRemoves(s, e.since, k, a) && t == Without(s, TickKey(k), a);
    }
  }

  lemma RoutesAfter(cfg: Settings, peerCfg: P.Config, w: World, action: Action, answer: Option<Answer>, v: World,
                    key: string)
    requires Follows(cfg, peerCfg, w, action, answer, v) && key in v.state.services
    ensures Registers(w, action, key) ==> v.state.services[key].routes == action.event.ping.routes
    ensures !Registers(w, action, key) ==>
              key in w.state.services && v.state.services[key].routes == w.state.services[key].routes
  {
    if action.Service? {
      RoutesMove(w.state.services, action.event, v.state.services, key);
    }
  }

  /** On every run the routes of a service are those of the last hello that registered an endpoint of it. */
  lemma {:induction false} RoutesWereAnnounced(cfg: Settings, peerCfg: P.Config, actions: seq<Action>,
                                               answers: seq<Option<Answer>>, worlds: seq<World>, n: nat, key: string)
    returns (i: int)
    requires IsWholeRun(cfg, peerCfg, actions, answers, worlds) && Fresh(worlds[0]) && n < |worlds|
    requires key in worlds[n].state.services
    ensures LastRegistration(actions, worlds, n, key, i)
    ensures worlds[n].state.services[key].routes == actions[i].event.ping.routes
  {
    var m := n - 1;
    RoutesAfter(cfg, peerCfg, worlds[m], actions[m], answers[m], worlds[n], key);
    if Registers(worlds[m], actions[m], key) {
      i := m;
    } else {
      i := RoutesWereAnnounced(cfg, peerCfg, actions, answers, worlds, m, key);
    }
  }

  // ---------------------------------------------------------------- what requests are answered

  /**
    What it takes to be exposed: a route of that identity that is not private,
    unless private ones are exposed, or an entry for the service among the event
    APIs; both under the prefix of the service.
  */
  lemma ExposedExactlyWhen(cfg: Settings, services: Services, key: string, api: string)
    ensures Serves(cfg, services, key, api) <==>
            && key in services
            && ((exists v, k :: v in services[key].routes && 0 <= k < |services[key].routes[v]|
                                && (!services[key].routes[v][k].private || cfg.exposePrivate)
                                && api == ExtractPrefix(key).prefix + "/" + services[key].routes[v][k].identity)
                || (ExtractPrefix(key).name in cfg.events
                    && api == ExtractPrefix(key).prefix + "/" + cfg.events[ExtractPrefix(key).name]))
  {
    if key in services {
      var routes: RouteMap := services[key].routes;
      if v, k :| v in routes && 0 <= k < |routes[v]| && (!routes[v][k].private || cfg.exposePrivate)
                 && api == ExtractPrefix(key).prefix + "/" + routes[v][k].identity {
        assert Visible(cfg, routes[v][k]);
        assert ExposesRoute(cfg, key, routes, api);
      }
      if ExposesRoute(cfg, key, routes, api) {
        var v, k :| v in routes && 0 <= k < |routes[v]| && Visible(cfg, routes[v][k])
                    && api == ExtractPrefix(key).prefix + "/" + routes[v][k].identity;
        assert !routes[v][k].private || cfg.exposePrivate;
      }
    }
  }

  /** And to be hidden: every route of that identity private while private ones are not exposed, and no event API. */
  lemma HiddenExactlyWhen(cfg: Settings, services: Services, key: string, api: string)
    ensures !Serves(cfg, services, key, api) <==>
            (key in services ==>
               && (forall v, k ::
                     (v in services[key].routes && 0 <= k < |services[key].routes[v]|
                      && api == ExtractPrefix(key).prefix + "/" + services[key].routes[v][k].identity) ==>
                     services[key].routes[v][k].private && !cfg.exposePrivate)
               && !(ExtractPrefix(key).name in cfg.events
                    && api == ExtractPrefix(key).prefix + "/" + cfg.events[ExtractPrefix(key).name]))
  {
    ExposedExactlyWhen(cfg, services, key, api);
  }

  /**
    On every run a request gets no upstream exactly when every route that
    matches it, of every registered service, is private while private ones are
    not exposed, and no event API matches.
  */
  lemma NoUpstreamExactlyWhen(cfg: Settings, peerCfg: P.Config, actions: seq<Action>, answers: seq<Option<Answer>>,
                              worlds: seq<World>, n: nat, path: string)
    requires IsWholeRun(cfg, peerCfg, actions, answers, worlds) && n < |actions|
    requires actions[n] == Request(path) && RoutingKey(path).Some?
    ensures var services, api := worlds[n].state.services, RoutingKey(path).value;
            answers[n] == Some(NoUpstream) <==>
              forall key :: key in services ==>
                && (forall v, k ::
                      (v in services[key].routes && 0 <= k < |services[key].routes[v]|
                       && api == ExtractPrefix(key).prefix + "/" + services[key].routes[v][k].identity) ==>
                      services[key].routes[v][k].private && !cfg.exposePrivate)
                && !(ExtractPrefix(key).name in cfg.events
                     && api == ExtractPrefix(key).prefix + "/" + cfg.events[ExtractPrefix(key).name])
  {
    var services, api := worlds[n].state.services, RoutingKey(path).value;
    assert Follows(cfg, peerCfg, worlds[n], actions[n], answers[n], worlds[n + 1]);
    assert AnswerFor(cfg, services, path, answers[n]);
    forall key { HiddenExactlyWhen(cfg, services, key, api); }
  }

  /**
    On every run, the address a request is given belongs to a service of which
    it was announced and not withdrawn since, and the routes that service
    announced last hold the identity asked for, not private unless private ones
    are exposed, or its name has an event API for it.
  */
  lemma AnswersWereAnnounced(cfg: Settings, peerCfg: P.Config, actions: seq<Action>, answers: seq<Option<Answer>>,
                             worlds: seq<World>, n: nat, path: string, address: string)
    returns (key: string, i: int, r: int)
    requires IsWholeRun(cfg, peerCfg, actions, answers, worlds) && Fresh(worlds[0]) && n < |actions|
    requires actions[n] == Request(path) && answers[n] == Some(To(address))
    ensures Registered(worlds[n].state.services, key, address)
    ensures LastHello(actions, n, key, address, worlds[n].state.services[key].endpoints[address], i)
    ensures LastRegistration(actions, worlds, n, key, r)
    ensures RoutingKey(path).Some? && Serves(cfg, worlds[n].state.services, key, RoutingKey(path).value)
    ensures var prefix, name := ExtractPrefix(key).prefix, ExtractPrefix(key).name;
            var routes := actions[r].event.ping.routes;
            || (exists v, k :: v in routes && 0 <= k < |routes[v]| && (!routes[v][k].private || cfg.exposePrivate)
                               && RoutingKey(path) == Some(prefix + "/" + routes[v][k].identity))
            || (name in cfg.events && RoutingKey(path) == Some(prefix + "/" + cfg.events[name]))
  {
    assert Follows(cfg, peerCfg, worlds[n], actions[n], answers[n], worlds[n + 1]);
    assert AnswerFor(cfg, worlds[n].state.services, path, answers[n]);
    var api := RoutingKey(path).value;
    key :| Serves(cfg, worlds[n].state.services, key, api) && Registered(worlds[n].state.services, key, address);
    i := RegisteredWereHeard(cfg, peerCfg, actions, answers, worlds, n, key, address);
    r := RoutesWereAnnounced(cfg, peerCfg, actions, answers, worlds, n, key);
    ExposedExactlyWhen(cfg, worlds[n].state.services, key, api);
  }

  // ---------------------------------------------------------------- what the latency book holds

  /** The event takes the samples of an address away: a goodbye removes its endpoint, or a tick finds it outdated. */
  predicate Forgets(w: World, x: Action, address: string) {
    x.Service? && match x.event
                  case Hello(_, _) => false
                  case Goodbye(key, a) =>
                    a == address && key in w.state.services && a in w.state.services[key].endpoints
                  case Tick(since) =>
                    exists key :: key in w.state.services && address in w.state.services[key].endpoints
                                  && w.state.services[key].endpoints[address].lastSeen < since
  }

  /** The samples of an address among the first `n` actions, since it was last forgotten. */
  function SamplesSince(actions: seq<Action>, worlds: seq<World>, n: nat, address: string): seq<real>
    requires n <= |actions| && |worlds| == |actions| + 1
  {
    if n == 0 || Forgets(worlds[n - 1], actions[n - 1], address) then []
    else
      SamplesSince(actions, worlds, n - 1, address)
      + (if actions[n - 1].Sample? && actions[n - 1].address == address then [actions[n - 1].micros] else [])
  }

  lemma SamplesStep(cfg: Settings, peerCfg: P.Config, w: World, action: Action, answer: Option<Answer>, v: World,
                    address: string)
    requires Follows(cfg, peerCfg, w, action, answer, v)
    ensures SamplesOf(v.samples, address) ==
            if Forgets(w, action, address) then []
            else SamplesOf(w.samples, address)
                 + (if action.Sample? && action.address == address then [action.micros] else [])
  {
    assert SamplesOf(w.samples, address) + [] == SamplesOf(w.samples, address);
    if action.Service? && action.event.Tick? {
      var s, since := w.state.services, action.event.since;
      OutdatedAddressesAre(s, since);
      assert (exists key :: IsOutdated(s, since, key, address)) <==> Forgets(w, action, address) by {
        if key :| IsOutdated(s, since, key, address) {
          assert key in s && address in s[key].endpoints && s[key].endpoints[address].lastSeen < since;
        }
        if Forgets(w, action, address) {
          var key :| key in s && address in s[key].endpoints && s[key].endpoints[address].lastSeen < since;
          assert IsOutdated(s, since, key, address);
        }
      }
    }
  }

  /** On every run the book holds, per address, the samples collected since the address was last forgotten, in order. */
  lemma {:induction false} BookHoldsTheSamples(cfg: Settings, peerCfg: P.Config, actions: seq<Action>,
                                               answers: seq<Option<Answer>>, worlds: seq<World>, n: nat,
                                               address: string)
    requires IsWholeRun(cfg, peerCfg, actions, answers, worlds) && Fresh(worlds[0]) && n < |worlds|
    ensures SamplesOf(worlds[n].samples, address) == SamplesSince(actions, worlds, n, address)
  {
    if n > 0 {
      BookHoldsTheSamples(cfg, peerCfg, actions, answers, worlds, n - 1, address);
      SamplesStep(cfg, peerCfg, worlds[n - 1], actions[n - 1], answers[n - 1], worlds[n], address);
    }
  }
}

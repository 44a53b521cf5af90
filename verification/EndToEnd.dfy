/**
  From the routes a server announces (meta.go) to the requests a gateway sends
  its way (gateway/upstreamer/push/upstreamer.go, gateway/upstreamer/push/utils.go).
*/
module EndToEnd {
  import opened Wrappers
  import opened Paths
  import opened Routes
  import opened Registry
  import opened Balancer
  import opened Runs
  import P = Peers

  /** The announced URL that a request fills in. */
  function Template(r: Request): string {
    match r
    case Collection(c) => "/" + c
    case Item(c, _) => "/" + c + "/:id"
    case Children(p, _, c) => "/" + p + "/:id/" + c
  }

  /** The key that a resync writes for a route of the service that pings with this prefix and name. */
  function WrittenKey(prefix: string, name: string, route: RouteInfo): string {
    ExtractPrefix(ServiceKey(prefix, name)).prefix + "/" + route.identity
  }

  lemma EntryIsFor(m: Model, processors: set<Identity>, e: RouteInfo)
    requires WellNamed(m, processors) && IsEntry(Contributions(m, processors), e)
    ensures SlashFree(e.identity) && UrlFor(e.url, e.identity)
  {
    var cs := Contributions(m, processors);
    var c :| c in cs && c.url == e.url && c.identity.category == e.identity && c.identity.private == e.private;
    var id :| id in m.relationships && id in processors && c in Own(m, id);
    OwnUrls(m, id, c);
  }

  /** A request that fills in an announced URL asks for the category announced with it. */
  lemma TemplateNamesIdentity(m: Model, processors: set<Identity>, e: RouteInfo, r: Request)
    requires WellNamed(m, processors) && IsEntry(Contributions(m, processors), e)
    requires Template(r) == e.url && AllSlashFree(Segments(r))
    ensures e.identity == r.category
  {
    EntryIsFor(m, processors, e);
    var segs := Segments(r);
    assert SlashFree(r.category) by { assert segs[|segs| - 1] == r.category || segs[0] == r.category; }
    assert UrlFor(e.url, r.category) by {
      if r.Children? { assert e.url == "/" + r.parent + "/:id/" + r.category; }
    }
    UrlDeterminesCategory(e.url, e.identity, r.category);
  }

  lemma PrefixWritten(prefix: string, name: string)
    requires SlashFree(prefix)
    ensures ExtractPrefix(ServiceKey(prefix, name)).prefix == prefix
            <==> prefix != "" || SlashFree(name) || StartsWith(name, "/")
  {
    if prefix != "" {
      FirstSlashOf(prefix, name);
    } else {
      assert name != "" ==> name[..1] == [name[0]];
      assert name[..|name|] == name;
    }
  }

  /**
    For every URL that fills in an announced template, with any version and
    prefix, the key looked up is the key written for its route, unless an
    unprefixed service has a slash inside its name.
  */
  lemma LookedUpKeyIsWrittenExactlyWhen(m: Model, processors: set<Identity>, table: seq<RouteInfo>, i: nat,
                                        prefix: string, name: string, version: Option<string>, r: Request)
    requires WellNamed(m, processors) && IsTable(Contributions(m, processors), table) && i < |table|
    requires Template(r) == table[i].url && Routable(prefix, version, r)
    ensures RoutingKey(Url(prefix, version, r)) == Some(WrittenKey(prefix, name, table[i]))
            <==> prefix != "" || SlashFree(name) || StartsWith(name, "/")
  {
    TemplateNamesIdentity(m, processors, table[i], r);
    RequestKey(prefix, version, r);
    PrefixWritten(prefix, name);
    var written := ExtractPrefix(ServiceKey(prefix, name)).prefix;
    if written + "/" + r.category == prefix + "/" + r.category {
      assert |written| == |prefix|;
      assert written == (written + "/" + r.category)[..|prefix|] == prefix;
    }
  }

  /** For one: an unprefixed service named `a/b` writes its keys under the prefix `a`, and nobody finds them. */
  lemma SlashedNameIsMissed(endpoints: map<string, EndpointState>)
    ensures var things := RouteInfo("things", "/things", ["GET"], false);
            var services: Services := map["a/b" := ServiceState(map[0 := [things]], endpoints)];
            var cfg := Settings(false, map[]);
            && ServiceKey("", "a/b") == "a/b" && Serves(cfg, services, "a/b", "a/things")
            && RoutingKey(Url("", None, Collection("things"))) == Some("/things")
            && forall key :: !Serves(cfg, services, key, "/things")
  {
    var things := RouteInfo("things", "/things", ["GET"], false);
    var routes: RouteMap := map[0 := [things]];
    var cfg := Settings(false, map[]);
    FirstSlashOf("a", "b");
    assert "a" + "/" + "b" == "a/b" && "a/b"[..1] == "a";
    assert ExtractPrefix("a/b").prefix == "a" && "a" + "/" + "things" == "a/things";
    assert routes[0][0] == things && Visible(cfg, things);
    assert ExposesRoute(cfg, "a/b", routes, "a/things");
    assert "a/things"[0] != "/things"[0];
    ThingsKey();
  }

  lemma ThingsKey()
    ensures RoutingKey(Url("", None, Collection("things"))) == Some("/things")
  {
    assert "things"[0] == 't';
    RequestKey("", None, Collection("things"));
    assert "" + "/" + "things" == "/things";
  }

  /**
    On every run: when a request fills in a route that a registered service
    announced last, not private unless private ones are exposed, it is not left
    without an upstream, and the path it goes on with is the unprefixed one.
  */
  lemma AnnouncedRoutesAreAnswered(m: Model, processors: set<Identity>, version: int, i: nat,
                                   cfg: Settings, peerCfg: P.Config, actions: seq<Action>,
                                   answers: seq<Option<Answer>>, worlds: seq<World>, n: nat, h: nat,
                                   prefix: string, name: string, asked: Option<string>, r: Request)
    requires IsWholeRun(cfg, peerCfg, actions, answers, worlds) && Fresh(worlds[0]) && n < |actions|
    requires actions[n] == Action.Request(Url(prefix, asked, r)) && Routable(prefix, asked, r)
    requires ServiceKey(prefix, name) in worlds[n].state.services
    requires LastRegistration(actions, worlds, n, ServiceKey(prefix, name), h)
    requires var routes := actions[h].event.ping.routes;
             && version in routes && IsTable(Contributions(m, processors), routes[version]) && i < |routes[version]|
             && (!routes[version][i].private || cfg.exposePrivate) && Template(r) == routes[version][i].url
    requires WellNamed(m, processors)
    requires prefix != "" || SlashFree(name) || StartsWith(name, "/")
    ensures answers[n].Some? && answers[n].value != NoUpstream
    ensures Rewritten(Url(prefix, asked, r)) == Url("", asked, r)
  {
    var key, services := ServiceKey(prefix, name), worlds[n].state.services;
    var last := RoutesWereAnnounced(cfg, peerCfg, actions, answers, worlds, n, key);
    assert last == h;
    var table := services[key].routes[version];
    LookedUpKeyIsWrittenExactlyWhen(m, processors, table, i, prefix, name, asked, r);
    RewrittenIsUnprefixed(prefix, asked, r);
    var api := WrittenKey(prefix, name, table[i]);
    assert api == ExtractPrefix(key).prefix + "/" + services[key].routes[version][i].identity;
    NoUpstreamExactlyWhen(cfg, peerCfg, actions, answers, worlds, n, Url(prefix, asked, r));
    assert Follows(cfg, peerCfg, worlds[n], actions[n], answers[n], worlds[n + 1]);
    assert AnswerFor(cfg, services, Url(prefix, asked, r), answers[n]);
  }
}

/**
  The service listener (`listenServices`, gateway/upstreamer/push/upstreamer.go):
  it turns hellos, goodbyes and ticks into changes of the registry and publishes
  the index that requests read.
*/
module ServiceListeners {
  import opened Wrappers
  import opened Paths
  import opened Registry
  import opened Directory

  lemma HelloIsPoke(r: Services, sp: Ping, now: int)
    requires Registered(r, KeyOf(sp), sp.endpoint)
    ensures AfterHello(r, sp, now) == Poked(r, KeyOf(sp), sp.endpoint, EndpointState(now, sp.load))
  {
  }

  /** A new endpoint has its own limiters, at the announced rates, and was never adjusted. */
  ghost predicate NewlyRegistered(e: EndpointInfo, sp: Ping)
    reads e`lastLimiterAdjust, e.limiters.Values
  {
    && Owned(e, KeyOf(sp), sp.endpoint, {e}, e.limiters.Values)
    && e.lastLimiterAdjust == 0 && AtAnnouncedRates(e)
  }

  class ServiceListener {
    const settings: Settings
    var services: Records
    var apis: Index
    /** The abstract registry, and the objects it is made of. */
    ghost var registry: Services
    ghost var eps: set<EndpointInfo>
    ghost var lims: set<RateLimiter>

    ghost predicate RegistryOk()
      reads `services, `registry, `eps, `lims, eps`lastSeen, eps`lastLoad
    {
      Implements(services, registry, eps, lims)
    }

    /** The registry is what the objects say, and the index is current, object for object. */
    ghost predicate Valid()
      reads `services, `apis, `registry, `eps, `lims, eps`lastSeen, eps`lastLoad
    {
      RegistryOk() && Populated(registry) && IsObjectIndex(settings, services, apis)
    }

    ghost function View(): State
      reads `registry, `apis
    {
      State(registry, IndexView(apis))
    }

    constructor (settings: Settings)
      ensures Valid() && View() == Init && this.settings == settings
      ensures services == map[] && eps == {} && lims == {}
    {
      this.settings := settings;
      services, apis, registry := map[], map[], map[];
      eps, lims := {}, {};
      EmptyIndex(settings);
    }

    /** Replaces the index by a resync of the current records. */
    method Resync()
      requires RegistryOk() && Populated(registry)
      modifies `apis
      ensures Valid() && IsIndex(settings, registry, IndexView(apis))
    {
      apis := ResyncRoutes(settings, services, eps, lims);
      ObjectIndexShows(settings, services, apis, registry, eps, lims);
    }

    /** Takes over records, with the registry they implement. */
    method Store(records: Records, ghost r: Services, ghost endpoints: set<EndpointInfo>,
                 ghost limiters: set<RateLimiter>)
      requires Implements(records, r, endpoints, limiters)
      modifies `services, `registry, `eps, `lims
      ensures RegistryOk()
      ensures services == records && registry == r && eps == endpoints && lims == limiters
    {
      services, registry, eps, lims := records, r, endpoints, limiters;
      assert Structured(records, endpoints, limiters);
      assert SameShape(records, r);
      assert SameStates(records, r, endpoints);
    }

    method StoreRegistry(ghost r: Services)
      requires Implements(services, r, eps, lims)
      modifies `registry
      ensures RegistryOk() && registry == r
    {
      registry := r;
      assert Structured(services, eps, lims);
      assert SameShape(services, r);
      assert SameStates(services, r, eps);
    }

    /** A hello from a registered endpoint: its date and load change, the index does not. */
    method HelloKnown(sp: Ping, now: int)
      requires RegistryOk() && Registered(registry, KeyOf(sp), sp.endpoint)
      modifies `registry, eps`lastSeen, eps`lastLoad
      ensures RegistryOk() && registry == AfterHello(old(registry), sp, now)
    {
      HelloIsPoke(registry, sp, now);
      PokeEndpoint(services, KeyOf(sp), sp.endpoint, sp.load, now, registry, eps, lims);
      StoreRegistry(AfterHello(registry, sp, now));
    }

    /** A hello from a new endpoint: it is registered, and its service takes its routes. */
    method HelloNew(sp: Ping, now: int) returns (e: EndpointInfo)
      requires RegistryOk() && !Registered(registry, KeyOf(sp), sp.endpoint)
      modifies `services, `registry, `eps, `lims
      ensures RegistryOk() && registry == AfterHello(old(registry), sp, now)
      ensures fresh(e) && fresh(e.limiters.Values) && NewlyRegistered(e, sp)
      ensures services == Installed(old(services), KeyOf(sp), sp.routes, e)
      ensures eps == old(eps) + {e} && lims == old(lims) + e.limiters.Values
    {
      var limiters := NewLimiters(KeyOf(sp), sp.endpoint, sp.limiters);
      e := new EndpointInfo(KeyOf(sp), sp.endpoint, limiters, now, sp.load);
      InstalledImplements(services, registry, sp, now, e, eps, lims);
      Store(Installed(services, KeyOf(sp), sp.routes, e), AfterHello(registry, sp, now), eps + {e},
            lims + e.limiters.Values);
    }

    /** `handleRemoveServicePing`: tells whether the endpoint was registered, and removes it then. */
    method HandleRemove(key: string, address: string) returns (removed: bool)
      requires RegistryOk()
      modifies `services, `registry, `eps, `lims
      ensures RegistryOk() && removed == Registered(old(registry), key, address)
      ensures registry == if removed then Without(old(registry), key, address) else old(registry)
      ensures services == if removed then Removed(old(services), key, address) else old(services)
      ensures eps == old(eps) && lims == old(lims)
    {
      assert ShapeOk(services, registry, key);
      removed := key in services && address in services[key].endpoints;
      if removed {
        RemovedImplements(services, registry, key, address, eps, lims);
        Store(Removed(services, key, address), Without(registry, key, address), eps, lims);
      }
    }

    /** A valid listener shows a current index, so what is left of a step is what it did to the registry. */
    lemma Stepped(s: State, e: Event)
      requires Valid() && Moves(s.services, e, registry)
      requires !Rebuilds(s.services, e, registry) ==> IndexView(apis) == s.apis
      ensures Step(settings, s, e, View())
    {
      ObjectIndexShows(settings, services, apis, registry, eps, lims);
    }

    /** A removal, and the rebuild that follows it if there was one. */
    method RemoveAndResync(key: string, address: string) returns (removed: bool)
      requires Valid()
      modifies `services, `apis, `registry, `eps, `lims
      ensures Valid() && removed == Registered(old(registry), key, address)
      ensures registry == if removed then Without(old(registry), key, address) else old(registry)
      ensures removed ==> key in old(services) && services == Removed(old(services), key, address)
      ensures !removed ==> services == old(services) && apis == old(apis)
      ensures eps == old(eps) && lims == old(lims)
    {
      removed := HandleRemove(key, address);
      if removed {
        WithoutPopulated(old(registry), key, address);
        Resync();
      }
    }

    method OnGoodbye(key: string, address: string) returns (removed: bool)
      requires Valid()
      modifies `services, `apis, `registry, `eps, `lims
      ensures Valid() && Step(settings, old(View()), Goodbye(key, address), View())
      ensures removed == Registered(old(registry), key, address)
      ensures eps == old(eps) && lims == old(lims)
    {
      ghost var s := View();
      removed := RemoveAndResync(key, address);
      Stepped(s, Goodbye(key, address));
    }

    /** The rebuild that follows a registration. */
    method RegisterAndResync(sp: Ping, now: int) returns (e: EndpointInfo)
      requires Valid() && !Registered(registry, KeyOf(sp), sp.endpoint)
      modifies `services, `apis, `registry, `eps, `lims
      ensures Valid() && registry == AfterHello(old(registry), sp, now)
      ensures fresh(e) && fresh(e.limiters.Values) && NewlyRegistered(e, sp)
      ensures services == Installed(old(services), KeyOf(sp), sp.routes, e)
      ensures eps == old(eps) + {e} && lims == old(lims) + e.limiters.Values
    {
      HelloPopulates(registry, sp, now);
      e := HelloNew(sp, now);
      Resync();
    }

    /** No rebuild follows a poke. */
    method PokeOnly(sp: Ping, now: int)
      requires Valid() && Registered(registry, KeyOf(sp), sp.endpoint)
      modifies `registry, eps`lastSeen, eps`lastLoad
      ensures Valid() && registry == AfterHello(old(registry), sp, now)
    {
      HelloPopulates(registry, sp, now);
      HelloKnown(sp, now);
    }

    /** `handleAddServicePing` and the rebuild it asks for; gives the endpoint object when it is new. */
    method OnHello(sp: Ping, now: int) returns (e: EndpointInfo?)
      requires Valid()
      modifies `services, `apis, `registry, `eps, `lims, eps`lastSeen, eps`lastLoad
      ensures Valid() && Step(settings, old(View()), Hello(sp, now), View())
      ensures e == null ==> services == old(services) && eps == old(eps) && lims == old(lims)
      ensures e != null ==> fresh(e) && fresh(e.limiters.Values) && NewlyRegistered(e, sp)
      ensures e != null ==> services == Installed(old(services), KeyOf(sp), sp.routes, e)
                            && eps == old(eps) + {e} && lims == old(lims) + e.limiters.Values
    {
      ghost var s := View();
      var known := Knows(sp);
      if known {
        PokeOnly(sp, now);
        e := null;
      } else {
        e := RegisterAndResync(sp, now);
      }
      Stepped(s, Hello(sp, now));
    }

    method Knows(sp: Ping) returns (known: bool)
      requires RegistryOk()
      ensures known == Registered(registry, KeyOf(sp), sp.endpoint)
    {
      assert ShapeOk(services, registry, KeyOf(sp));
      known := KeyOf(sp) in services && sp.endpoint in services[KeyOf(sp)].endpoints;
    }

    /** `outdatedEndpoints` of the service stored under `key`, if it still is. */
    method OutdatedOf(key: string, since: int) returns (out: seq<string>)
      requires RegistryOk()
      ensures forall a :: a in out <==> IsOutdated(registry, since, key, a)
    {
      out := [];
      assert ShapeOk(services, registry, key);
      if key in services {
        out := OutdatedEndpoints(services[key].endpoints, since);
        assert forall a :: a in services[key].endpoints ==> EndpointOk(services, key, a, eps, lims);
        assert forall a :: a in services[key].endpoints ==> StateOk(services, registry, key, a, eps);
      }
    }

    /** The removals of one service during a tick: the first that succeeds switches the others off. */
    method RemoveFirst(key: string, out: seq<string>) returns (found: bool, ghost gone: string)
      requires RegistryOk()
      modifies `services, `registry, `eps, `lims
      ensures RegistryOk() && eps == old(eps) && lims == old(lims)
      ensures found ==> gone in out && Registered(old(registry), TickKey(key), gone)
                        && registry == Without(old(registry), TickKey(key), gone)
                        && services == Removed(old(services), TickKey(key), gone)
      ensures !found ==> registry == old(registry) && services == old(services)
                         && forall a :: a in out ==> !Registered(old(registry), TickKey(key), a)
    {
      found, gone := false, "";
      for i := 0 to |out|
        invariant RegistryOk() && eps == old(eps) && lims == old(lims)
        invariant found ==> gone in out && Registered(old(registry), TickKey(key), gone)
                            && registry == Without(old(registry), TickKey(key), gone)
                            && services == Removed(old(services), TickKey(key), gone)
        invariant !found ==> registry == old(registry) && services == old(services)
                             && forall a :: a in out[..i] ==> !Registered(old(registry), TickKey(key), a)
      {
        assert out[..i + 1] == out[..i] + [out[i]];
        if !found {
          found := HandleRemove(TickKey(key), out[i]);
          gone := out[i];
        }
      }
      assert out[..|out|] == out;
    }

    /** The walk of a tick over the services, in any order; `looked` are the outdated addresses it came across. */
    method Sweep(since: int) returns (found: bool, looked: seq<string>, ghost at: string, ghost gone: string)
      requires RegistryOk()
      modifies `services, `registry, `eps, `lims
      ensures RegistryOk() && eps == old(eps) && lims == old(lims)
      ensures Swept(old(registry), since, {}, found, at, gone, registry, looked)
      ensures services == if found && Registered(old(registry), TickKey(at), gone)
                          then Removed(old(services), TickKey(at), gone) else old(services)
    {
      found, looked, at, gone := false, [], "", "";
      var todo := services.Keys;
      while todo != {}
        invariant RegistryOk() && eps == old(eps) && lims == old(lims)
        invariant Swept(old(registry), since, todo, found, at, gone, registry, looked)
        invariant services == if found && Registered(old(registry), TickKey(at), gone)
                              then Removed(old(services), TickKey(at), gone) else old(services)
      {
        var key :| key in todo;
        ghost var before := registry;
        var out := OutdatedOf(key, since);
        ghost var foundBefore, atBefore, goneBefore := found, at, gone;
        if !found {
          found, gone := RemoveFirst(key, out);
          at := key;
        }
        SweptOneMore(old(registry), since, todo, key, foundBefore, atBefore, goneBefore, before, looked, out,
                     found, at, gone, registry);
        looked := looked + out;
        todo := todo - {key};
      }
    }

    /** The walk of a tick, and the rebuild that follows it if something was removed. */
    method SweepAndResync(since: int) returns (found: bool, looked: seq<string>, ghost at: string, ghost gone: string)
      requires Valid()
      modifies `services, `apis, `registry, `eps, `lims
      ensures Valid() && TickOutcome(old(registry), since, registry)
      ensures found ==>
                Registered(old(registry), TickKey(at), gone) && services == Removed(old(services), TickKey(at), gone)
      ensures found ==> registry != old(registry)
      ensures !found ==> registry == old(registry) && services == old(services) && apis == old(apis)
      ensures eps == old(eps) && lims == old(lims)
      ensures ElementsOf(looked) == OutdatedAddresses(old(registry), since)
    {
      found, looked, at, gone := Sweep(since);
      SweptIsTick(old(registry), since, found, at, gone, registry, looked);
      if found {
        WithoutKeepsEndpoints(old(registry), TickKey(at), gone);
        Resync();
      }
    }

    /** A timeout tick. */
    method OnTick(since: int) returns (looked: seq<string>)
      requires Valid()
      modifies `services, `apis, `registry, `eps, `lims
      ensures Valid() && Step(settings, old(View()), Tick(since), View())
      ensures eps == old(eps) && lims == old(lims)
      ensures ElementsOf(looked) == OutdatedAddresses(old(registry), since)
    {
      ghost var s, found, at, gone := View(), false, "", "";
      found, looked, at, gone := SweepAndResync(since);
      Stepped(s, Tick(since));
    }

    /** One event of any kind. */
    method Handle(event: Event)
      requires Valid()
      modifies `services, `apis, `registry, `eps, `lims, eps`lastSeen, eps`lastLoad
      ensures Valid() && Step(settings, old(View()), event, View()) && fresh(eps - old(eps))
    {
      match event {
        case Hello(sp, now) => var e := OnHello(sp, now);
        case Goodbye(key, address) => var removed := OnGoodbye(key, address);
        case Tick(since) => var looked := OnTick(since);
      }
    }

    /** The event loop of a new listener: whatever it receives, its states form a run. */
    method Listen(events: seq<Event>) returns (ghost states: seq<State>)
      requires Valid() && View() == Init && eps == {}
      modifies this
      ensures Valid() && IsRun(settings, events, states) && states[|events|] == View()
    {
      states := [View()];
      for i := 0 to |events|
        invariant Valid() && fresh(eps)
        invariant IsRun(settings, events[..i], states) && states[i] == View()
      {
        Handle(events[i]);
        RunSnoc(settings, events, i, states, View());
        states := states + [View()];
      }
      assert events[..|events|] == events;
    }
  }

  lemma RunSnoc(cfg: Settings, events: seq<Event>, n: nat, states: seq<State>, t: State)
    requires n < |events| && IsRun(cfg, events[..n], states) && Step(cfg, states[n], events[n], t)
    ensures IsRun(cfg, events[..n + 1], states + [t])
  {
    var longer, statesNow := events[..n + 1], states + [t];
    forall i | 0 <= i < n + 1 ensures Step(cfg, statesNow[i], longer[i], statesNow[i + 1]) {
      if i < n {
        assert Step(cfg, states[i], events[..n][i], states[i + 1]);
      }
    }
  }

  /** What a tick has done once the services other than `todo` have been looked at. */
  ghost predicate Swept(r0: Services, since: int, todo: set<string>, found: bool, at: string, gone: string,
                        r: Services, looked: seq<string>) {
    && (found ==> TickRemoves(r0, since, at, gone) && r == Without(r0, TickKey(at), gone) && gone in looked)
    && (!found ==> r == r0 && forall key, a :: key !in todo ==> !TickRemoves(r0, since, key, a))
    && (forall a :: a in looked ==> exists key :: IsOutdated(r0, since, key, a))
    && (forall key, a :: key !in todo && IsOutdated(r0, since, key, a) ==> a in looked)
  }

  lemma OutdatedBesideRemoval(r0: Services, since: int, key: string, address: string, k: string, a: string)
    requires Registered(r0, key, address)
    ensures IsOutdated(Without(r0, key, address), since, k, a) <==>
            IsOutdated(r0, since, k, a) && (k != key || a != address)
  {
    assert forall b :: b in (r0[key].endpoints - {address}).Keys <==> b in r0[key].endpoints && b != address;
  }

  lemma SweptOneMore(r0: Services, since: int, todo: set<string>, key: string,
                     found: bool, at: string, gone: string, r: Services, looked: seq<string>, out: seq<string>,
                     found1: bool, at1: string, gone1: string, r1: Services)
    requires Swept(r0, since, todo, found, at, gone, r, looked) && key in todo
    requires forall a :: a in out <==> IsOutdated(r, since, key, a)
    requires found ==> found1 && at1 == at && gone1 == gone && r1 == r
    requires !found && found1 ==> at1 == key && gone1 in out && Registered(r, TickKey(key), gone1)
                                  && r1 == Without(r, TickKey(key), gone1)
    requires !found && !found1 ==> r1 == r && forall a :: a in out ==> !Registered(r, TickKey(key), a)
    ensures Swept(r0, since, todo - {key}, found1, at1, gone1, r1, looked + out)
  {
    forall a ensures a in out ==> IsOutdated(r0, since, key, a)
             ensures IsOutdated(r0, since, key, a) ==> a in looked + out
    {
      if found { OutdatedBesideRemoval(r0, since, TickKey(at), gone, key, a); }
    }
    forall a | a in looked + out ensures exists k :: IsOutdated(r0, since, k, a) {
      if a !in looked { assert IsOutdated(r0, since, key, a); }
    }
  }

  lemma SweptIsTick(r0: Services, since: int, found: bool, at: string, gone: string, r: Services, looked: seq<string>)
    requires Swept(r0, since, {}, found, at, gone, r, looked)
    ensures TickOutcome(r0, since, r)
    ensures ElementsOf(looked) == OutdatedAddresses(r0, since)
  {
    OutdatedAddressesAre(r0, since);
  }
}

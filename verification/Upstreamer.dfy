/**
  The push upstreamer (gateway/upstreamer/push/upstreamer.go): the service
  listener, the peer listener, the latency book and the requests, over the same
  objects. Each handler and each request is one step, and the clock is strictly
  increasing, with zero for a date that was never set.
*/
module Upstreamers {
  import opened Wrappers
  import opened Paths
  import opened Registry
  import opened Directory
  import opened Latency
  import opened Balancer
  import opened ServiceListeners
  import opened Fleets
  import opened Runs
  import R = Readiness
  import P = Peers

  twostate lemma ListenerFramed(listener: ServiceListener)
    requires old(listener.Valid())
    requires unchanged(listener)
    requires forall e :: e in listener.eps ==> e.lastSeen == old(e.lastSeen) && e.lastLoad == old(e.lastLoad)
    ensures listener.Valid()
  {
    assert old(listener.RegistryOk()) == listener.RegistryOk();
  }

  function Dropped(removed: bool, address: string): seq<string> { if removed then [address] else [] }

  lemma DroppedIsGone(services: Services, key: string, address: string)
    ensures ElementsOf(Dropped(Registered(services, key, address), address)) == Gone(services, key, address)
  {
  }

  class Upstreamer {
    const listener: ServiceListener
    const peers: P.PeerTable
    const book: LatencyBook
    const ready: R.ReadyWatch

    ghost predicate PeersOk()
      reads peers
    {
      && peers.Valid() && peers.lastPeerChange >= 0
      && (peers.lastPeerChange == 0 ==> peers.peersCount == 0)
    }

    ghost function CurrentFleet(): Fleet
      reads listener`services, listener`eps, listener`lims, peers`peersCount, peers`lastPeerChange
    {
      Fleet(listener.services, listener.eps, listener.lims, if peers.peersCount < 0 then 0 else peers.peersCount,
            peers.lastPeerChange)
    }

    ghost predicate Valid()
      reads listener, peers, book, (set a | a in book.averages :: book.averages[a].ring)
      reads listener.eps`lastSeen, listener.eps`lastLoad
      reads listener.eps`lastLimiterAdjust, listener.lims`limit, listener.lims`burst
    {
      listener.Valid() && PeersOk() && InLine(CurrentFleet()) && book.Valid()
    }

    constructor (settings: Settings, cfg: P.Config, rid: string, sampleSize: int, required: seq<string>)
      requires P.ValidConfig(cfg) && sampleSize > 0
      ensures Valid() && fresh(listener) && fresh(peers) && fresh(book)
      ensures ready.Valid() && fresh(ready) && ready.requiredServices == required && ready.history == []
      ensures listener.View() == Init && listener.eps == {} && listener.lims == {} && listener.settings == settings
      ensures peers.View() == P.NewGateway(rid) && book.samples == map[]
    {
      listener := new ServiceListener(settings);
      peers := new P.PeerTable(cfg, rid);
      book := new LatencyBook(sampleSize);
      ready := new R.ReadyWatch(required);
    }

    // ---------------------------------------------------------------- services

    /** A poke touches no rates. */
    method Poke(sp: Ping, now: int)
      requires listener.Valid() && InLine(CurrentFleet()) && Registered(listener.registry, KeyOf(sp), sp.endpoint)
      modifies listener, listener.eps`lastSeen, listener.eps`lastLoad
      ensures listener.Valid() && InLine(CurrentFleet())
      ensures listener.registry == AfterHello(old(listener.registry), sp, now) && listener.apis == old(listener.apis)
      ensures listener.eps == old(listener.eps) && listener.lims == old(listener.lims)
    {
      ghost var f := CurrentFleet();
      listener.PokeOnly(sp, now);
      RatesFramed(f);
      assert CurrentFleet() == f;
    }

    /** A new endpoint comes with its announced rates and is due for adjustment when there are peers. */
    method Register(sp: Ping, now: int)
      requires listener.Valid() && PeersOk() && InLine(CurrentFleet())
      requires !Registered(listener.registry, KeyOf(sp), sp.endpoint)
      modifies listener
      ensures listener.Valid() && InLine(CurrentFleet())
      ensures listener.registry == AfterHello(old(listener.registry), sp, now)
      ensures fresh(listener.eps - old(listener.eps)) && fresh(listener.lims - old(listener.lims))
    {
      ghost var f := CurrentFleet();
      var e := listener.RegisterAndResync(sp, now);
      RatesFramed(f);
      NewRatesOk(e, f.peers, f.lastChange);
      InstalledInLine(f, KeyOf(sp), sp.routes, e);
      assert CurrentFleet() == Joined(f, KeyOf(sp), sp.routes, e);
    }

    method Add(sp: Ping, now: int)
      requires listener.Valid() && PeersOk() && InLine(CurrentFleet())
      modifies listener, listener.eps`lastSeen, listener.eps`lastLoad
      ensures listener.Valid() && InLine(CurrentFleet())
      ensures Moves(old(listener.registry), Hello(sp, now), listener.registry)
      ensures Registered(old(listener.registry), KeyOf(sp), sp.endpoint) ==> listener.apis == old(listener.apis)
      ensures fresh(listener.eps - old(listener.eps)) && fresh(listener.lims - old(listener.lims))
    {
      var known := listener.Knows(sp);
      if known {
        Poke(sp, now);
      } else {
        Register(sp, now);
      }
    }

    method OnHello(sp: Ping, now: int)
      requires Valid()
      modifies listener, listener.eps`lastSeen, listener.eps`lastLoad
      ensures Valid() && Step(listener.settings, old(listener.View()), Hello(sp, now), listener.View())
      ensures book.samples == old(book.samples)
      ensures fresh(listener.eps - old(listener.eps)) && fresh(listener.lims - old(listener.lims))
    {
      ghost var s, ok, samples := listener.View(), book.Valid(), book.samples;
      Add(sp, now);
      assert ok == book.Valid() && samples == book.samples;
      listener.Stepped(s, Hello(sp, now));
    }

    method Remove(key: string, address: string) returns (dropped: seq<string>)
      requires listener.Valid() && InLine(CurrentFleet())
      modifies listener
      ensures listener.Valid() && InLine(CurrentFleet())
      ensures Moves(old(listener.registry), Goodbye(key, address), listener.registry)
      ensures !Registered(old(listener.registry), key, address) ==> listener.apis == old(listener.apis)
      ensures listener.eps == old(listener.eps) && listener.lims == old(listener.lims)
      ensures ElementsOf(dropped) == Gone(old(listener.registry), key, address)
    {
      DroppedIsGone(listener.registry, key, address);
      ghost var f := CurrentFleet();
      var removed := listener.RemoveAndResync(key, address);
      RatesFramed(f);
      if removed {
        RemovedInLine(f, key, address);
      }
      dropped := Dropped(removed, address);
    }

    /** Forgets the latencies of some addresses. */
    method Forget(addresses: seq<string>)
      requires Valid()
      modifies book
      ensures Valid() && book.samples == old(book.samples) - ElementsOf(addresses)
    {
      book.DeleteAll(addresses);
      ListenerFramed(listener);
      RatesFramed(CurrentFleet());
    }

    method OnGoodbye(key: string, address: string)
      requires Valid()
      modifies listener, book
      ensures Valid() && Step(listener.settings, old(listener.View()), Goodbye(key, address), listener.View())
      ensures listener.eps == old(listener.eps) && listener.lims == old(listener.lims)
      ensures book.samples == old(book.samples) - Gone(old(listener.registry), key, address)
    {
      ghost var s, ok := listener.View(), book.Valid();
      var dropped := Remove(key, address);
      assert ok == book.Valid();
      Forget(dropped);
      listener.Stepped(s, Goodbye(key, address));
    }

    method RemoveOutdated(since: int) returns (looked: seq<string>)
      requires listener.Valid() && InLine(CurrentFleet())
      modifies listener
      ensures listener.Valid() && InLine(CurrentFleet())
      ensures Moves(old(listener.registry), Tick(since), listener.registry)
      ensures listener.registry == old(listener.registry) ==> listener.apis == old(listener.apis)
      ensures listener.eps == old(listener.eps) && listener.lims == old(listener.lims)
      ensures ElementsOf(looked) == OutdatedAddresses(old(listener.registry), since)
    {
      ghost var f, at, gone := CurrentFleet(), "", "";
      var found;
      found, looked, at, gone := listener.SweepAndResync(since);
      RatesFramed(f);
      if found {
        RemovedInLine(f, TickKey(at), gone);
      }
    }

    /** A tick removes at most one outdated endpoint, and forgets the latencies of them all. */
    method OnTick(since: int)
      requires Valid()
      modifies listener, book
      ensures Valid() && Step(listener.settings, old(listener.View()), Tick(since), listener.View())
      ensures listener.eps == old(listener.eps) && listener.lims == old(listener.lims)
      ensures book.samples == old(book.samples) - OutdatedAddresses(old(listener.registry), since)
    {
      ghost var s, ok := listener.View(), book.Valid();
      var looked := RemoveOutdated(since);
      assert ok == book.Valid();
      Forget(looked);
      listener.Stepped(s, Tick(since));
    }

    // ---------------------------------------------------------------- peers and latencies

    method OnPeerHello(id: string, now: int)
      requires Valid() && now > peers.lastPeerChange
      modifies peers
      ensures Valid() && peers.View() == P.AfterHello(old(peers.View()), id, now)
    {
      ghost var f := CurrentFleet();
      peers.HandleHello(id, now);
      PeersChanged(f);
    }

    method OnPeerGoodbye(id: string, now: int)
      requires Valid() && now > peers.lastPeerChange
      modifies peers
      ensures Valid() && peers.View() == P.AfterGoodbye(old(peers.View()), id, now)
    {
      ghost var f := CurrentFleet();
      peers.HandleGoodbye(id, now);
      PeersChanged(f);
    }

    method OnPeerClean(now: int)
      requires Valid() && now > peers.lastPeerChange
      modifies peers
      ensures Valid() && peers.View() == P.AfterClean(peers.cfg, old(peers.View()), now)
    {
      ghost var f := CurrentFleet();
      peers.CleanPeers(now);
      PeersChanged(f);
    }

    /** What a peer handler leaves to show: the listener is as it was, and a change is a later one. */
    twostate lemma PeersChanged(f: Fleet)
      requires old(listener.Valid()) && unchanged(listener) && f == old(CurrentFleet()) && old(InLine(f))
      requires forall e :: e in listener.eps ==> e.lastSeen == old(e.lastSeen) && e.lastLoad == old(e.lastLoad)
      requires forall e :: e in f.eps ==> e.lastLimiterAdjust == old(e.lastLimiterAdjust)
      requires forall l :: l in f.lims ==> l.limit == old(l.limit) && l.burst == old(l.burst)
      requires peers.lastPeerChange > f.lastChange || CurrentFleet() == f
      ensures listener.Valid() && InLine(CurrentFleet())
    {
      ListenerFramed(listener);
      RatesFramed(f);
      if peers.lastPeerChange > f.lastChange {
        DueAfterChange(f, CurrentFleet().peers, peers.lastPeerChange);
      }
    }

    method CollectLatency(address: string, micros: real)
      requires Valid()
      modifies book
      ensures Valid() && book.samples == old(book.samples)[address := old(book.SamplesOf(address)) + [micros]]
    {
      book.Collect(address, micros);
      ListenerFramed(listener);
      RatesFramed(CurrentFleet());
    }

    // ---------------------------------------------------------------- requests

    /** A request leaves dates, loads and latencies alone, so what the listener and the book rely on stays sound. */
    method Lookup(api: string, identity: string)
      returns (answer: Answer, ghost pair: seq<EndpointInfo>, ghost draw: int)
      requires Valid()
      modifies listener.eps`lastLimiterAdjust, listener.lims`limit, listener.lims`burst, listener.lims`tokens
      ensures Valid() && Fits(listener.settings, listener.registry, api, answer)
      ensures IsPair(pair, Candidates(listener.apis, api))
      ensures pair != [] ==>
                && ConsultedAtRates(pair[0], identity, peers.peersCount)
                && ConsultedAtRates(pair[1], identity, peers.peersCount)
      ensures pair != [] ==>
                Drawn(old(WeightsFor(book, pair[0], pair[1])), pair, old(TokensFor(pair[0], identity)),
                      old(TokensFor(pair[1], identity)), identity, draw, answer)
      ensures forall l :: l in old(listener.lims) ==>
                l.tokens == TokensAfter(old(l.tokens), l.burst, l, pair, identity, answer)
    {
      ghost var f, listenerOk, bookOk := CurrentFleet(), listener.Valid(), book.Valid();
      answer, pair, draw := Route(listener.settings, listener.apis, api, identity, peers.peersCount,
                                  peers.lastPeerChange, book, f, listener.registry);
      assert CurrentFleet() == f;
      assert listenerOk == listener.Valid();
      assert bookOk == book.Valid();
    }

    /** `Upstream`: what becomes of a request for `path`, and the path it goes on with. */
    method Upstream(path: string)
      returns (answer: Answer, rewritten: string, ghost pair: seq<EndpointInfo>, ghost draw: int)
      requires Valid()
      modifies listener.eps`lastLimiterAdjust, listener.lims`limit, listener.lims`burst, listener.lims`tokens
      ensures Valid() && rewritten == Rewritten(path)
      ensures GetTargetIdentity(path).None? ==> answer == Panic && pair == []
      ensures GetTargetIdentity(path).Some? ==>
                && Fits(listener.settings, listener.registry, RoutingKey(path).value, answer)
                && IsPair(pair, Candidates(listener.apis, RoutingKey(path).value))
      ensures pair != [] ==>
                var identity := IdentityOf(path);
                && ConsultedAtRates(pair[0], identity, peers.peersCount)
                && ConsultedAtRates(pair[1], identity, peers.peersCount)
                && Drawn(old(WeightsFor(book, pair[0], pair[1])), pair, old(TokensFor(pair[0], identity)),
                         old(TokensFor(pair[1], identity)), identity, draw, answer)
      ensures forall l :: l in old(listener.lims) ==>
                l.tokens == TokensAfter(old(l.tokens), l.burst, l, pair, IdentityOf(path), answer)
    {
      rewritten := path;
      match GetTargetIdentity(path) {
        case None =>
          answer, pair, draw := Panic, [], 0;
        case Some(t) =>
          rewritten := TrimPrefix(path, "/_" + t.prefix);
          answer, pair, draw := Lookup(t.prefix + "/" + t.identity, t.identity);
      }
    }

    method ExtractRates() returns (limit: real, burst: int)
      requires Valid()
      modifies peers`lastRateSet
      ensures Valid() && peers.View() == P.AfterRates(peers.cfg, old(peers.View()))
      ensures P.RateSet(limit, burst) == P.Share(peers.cfg, |peers.peers.Keys|)
      ensures var n := |peers.peers.Keys| + 1;
              n * burst <= peers.cfg.burst < n * (burst + 1) && n as real * limit == peers.cfg.rps
    {
      ghost var f := CurrentFleet();
      limit, burst := peers.ExtractRates();
      PeersChanged(f);
    }

    // ---------------------------------------------------------------- whole runs

    method OnService(event: Event)
      requires Valid()
      modifies listener, book, listener.eps`lastSeen, listener.eps`lastLoad
      ensures Valid() && Step(listener.settings, old(listener.View()), event, listener.View())
      ensures book.samples == SamplesAfter(old(book.samples), old(listener.registry), event)
      ensures fresh(listener.eps - old(listener.eps)) && fresh(listener.lims - old(listener.lims))
    {
      match event {
        case Hello(sp, now) => OnHello(sp, now);
        case Goodbye(key, address) => OnGoodbye(key, address);
        case Tick(since) => OnTick(since);
      }
    }

    /** The watch on the required services hears of every hello. */
    method Note(event: Event)
      requires Valid() && ready.Valid()
      modifies ready
      ensures Valid() && ready.Valid() && ready.history == HellosAfter(old(ready.history), event)
    {
      ghost var ok := Valid();
      if event.Hello? {
        ready.OnHello(event.ping.name);
      }
      assert ok == Valid();
    }

    method DoService(event: Event)
      requires Valid() && ready.Valid()
      modifies listener, book, ready, listener.eps`lastSeen, listener.eps`lastLoad
      ensures Valid() && ready.Valid()
      ensures Follows(listener.settings, peers.cfg, old(CurrentWorld()), Action.Service(event), None, CurrentWorld())
      ensures fresh(listener.eps - old(listener.eps)) && fresh(listener.lims - old(listener.lims))
    {
      ghost var ok := ready.Valid();
      OnService(event);
      assert ok == ready.Valid();
      Note(event);
    }

    method OnPeer(e: P.Timed)
      requires Valid() && e.at > peers.lastPeerChange
      modifies peers
      ensures Valid() && peers.View() == P.After(peers.cfg, old(peers.View()), e)
      ensures peers.lastPeerChange == old(peers.lastPeerChange) || peers.lastPeerChange == e.at
    {
      P.LastChangeAfter(peers.cfg, peers.View(), e);
      match e.event {
        case HelloFrom(id) => OnPeerHello(id, e.at);
        case GoodbyeFrom(id) => OnPeerGoodbye(id, e.at);
        case Clean => OnPeerClean(e.at);
        case Rates => var limit, burst := ExtractRates();
      }
    }

    ghost function CurrentWorld(): World
      reads listener, peers, book, ready
    {
      World(listener.View(), peers.View(), book.samples, ready.history)
    }

    method DoPeer(timed: P.Timed)
      requires Valid() && ready.Valid() && timed.at > peers.lastPeerChange
      modifies peers
      ensures Valid() && ready.Valid()
      ensures Follows(listener.settings, peers.cfg, old(CurrentWorld()), Peer(timed), None, CurrentWorld())
      ensures peers.lastPeerChange == old(peers.lastPeerChange) || peers.lastPeerChange == timed.at
    {
      ghost var ok, v := ready.Valid(), listener.View();
      OnPeer(timed);
      assert ok == ready.Valid() && v == listener.View();
    }

    method DoSample(address: string, micros: real)
      requires Valid() && ready.Valid()
      modifies book
      ensures Valid() && ready.Valid()
      ensures Follows(listener.settings, peers.cfg, old(CurrentWorld()), Sample(address, micros), None, CurrentWorld())
    {
      ghost var ok, v := ready.Valid(), listener.View();
      CollectLatency(address, micros);
      assert ok == ready.Valid() && v == listener.View();
    }

    method DoRequest(path: string) returns (answer: Answer)
      requires Valid() && ready.Valid()
      modifies listener.eps`lastLimiterAdjust, listener.lims`limit, listener.lims`burst, listener.lims`tokens
      ensures Valid() && ready.Valid()
      ensures Follows(listener.settings, peers.cfg, old(CurrentWorld()), Request(path), Some(answer), CurrentWorld())
    {
      ghost var ok, w := ready.Valid(), CurrentWorld();
      ghost var pair, draw;
      var rewritten;
      answer, rewritten, pair, draw := Upstream(path);
      assert ok == ready.Valid() && w == CurrentWorld();
    }

    /** One step of any kind. */
    method Do(action: Action) returns (answer: Option<Answer>)
      requires Valid() && ready.Valid() && (action.Peer? ==> action.timed.at > peers.lastPeerChange)
      modifies listener, peers, book, ready, listener.eps, listener.lims
      ensures Valid() && ready.Valid()
      ensures Follows(listener.settings, peers.cfg, old(CurrentWorld()), action, answer, CurrentWorld())
      ensures fresh(listener.eps - old(listener.eps)) && fresh(listener.lims - old(listener.lims))
      ensures peers.lastPeerChange == old(peers.lastPeerChange)
                || (action.Peer? && peers.lastPeerChange == action.timed.at)
    {
      answer := None;
      match action {
        case Service(event) => DoService(event);
        case Peer(timed) => DoPeer(timed);
        case Sample(address, micros) => DoSample(address, micros);
        case Request(path) =>
          var a := DoRequest(path);
          answer := Some(a);
      }
    }

    /** One more step of a run. */
    method ServeNext(actions: seq<Action>, i: nat, answers: seq<Option<Answer>>, ghost worlds: seq<World>)
      returns (longer: seq<Option<Answer>>, ghost more: seq<World>)
      requires Valid() && ready.Valid() && i < |actions| && ClockRuns(actions[i..], peers.lastPeerChange)
      requires IsWholeRun(listener.settings, peers.cfg, actions[..i], answers, worlds) && worlds[i] == CurrentWorld()
      modifies listener, peers, book, ready, listener.eps, listener.lims
      ensures Valid() && ready.Valid() && ClockRuns(actions[i + 1..], peers.lastPeerChange)
      ensures IsWholeRun(listener.settings, peers.cfg, actions[..i + 1], longer, more)
      ensures more[0] == worlds[0] && more[i + 1] == CurrentWorld()
      ensures fresh(listener.eps - old(listener.eps)) && fresh(listener.lims - old(listener.lims))
    {
      ghost var before := peers.lastPeerChange;
      assert actions[i..][0] == actions[i];
      var answer := Do(actions[i]);
      WholeRunSnoc(listener.settings, peers.cfg, actions, i, answers, worlds, answer, CurrentWorld());
      longer, more := answers + [answer], worlds + [CurrentWorld()];
      ClockGoesOn(actions, i, before, peers.lastPeerChange);
    }

    /**
      Every interleaving of steps keeps the upstreamer valid and answers every request from the
      registry of its time.
    */
    method Serve(actions: seq<Action>) returns (answers: seq<Option<Answer>>, ghost worlds: seq<World>)
      requires Valid() && ready.Valid() && listener.eps == {} && listener.lims == {}
      requires ClockRuns(actions, peers.lastPeerChange)
      modifies listener, peers, book, ready
      ensures Valid() && ready.Valid() && IsWholeRun(listener.settings, peers.cfg, actions, answers, worlds)
      ensures worlds[0] == old(CurrentWorld()) && worlds[|actions|] == CurrentWorld()
      ensures ready.readyCloses <= 1
      ensures ready.readyCloses == 1 <==>
                R.Distinct(ready.requiredServices) && R.AllSeen(ready.requiredServices, worlds[|actions|].hellos)
    {
      answers, worlds := [], [CurrentWorld()];
      for i := 0 to |actions|
        invariant Valid() && ready.Valid() && fresh(listener.eps) && fresh(listener.lims)
        invariant IsWholeRun(listener.settings, peers.cfg, actions[..i], answers, worlds)
        invariant worlds[0] == old(CurrentWorld()) && worlds[i] == CurrentWorld()
        invariant ClockRuns(actions[i..], peers.lastPeerChange)
      {
        answers, worlds := ServeNext(actions, i, answers, worlds);
      }
      assert actions[..|actions|] == actions;
      R.ReadyExactlyWhen(ready.requiredServices, ready.history);
    }
  }
}

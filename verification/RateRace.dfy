/**
  `ExtractRates` against `listenPeers` (gateway/upstreamer/push/upstreamer.go)
  at the grain of their atomic operations: a call tests the cache, loads the
  count and stores its rates; a handler changes the count and then empties the
  cache. Any number of calls interleave with the one handler.
*/
module RateRace {
  import opened Wrappers
  import P = Peers

  type CallId = nat

  datatype Step = Test(call: CallId) | Load(call: CallId) | Store(call: CallId) | Handle(timed: P.Timed) | Reset

  /**
    `calls` are those past the cache test, with the count they loaded; `resetDue`: the handler is yet
    to empty the cache.
  */
  datatype State = State(gateway: P.Gateway, calls: map<CallId, Option<nat>>, resetDue: bool)

  function Start(rid: string): State { State(P.NewGateway(rid), map[], false) }

  /** What a handler does before it empties the cache. */
  function Handled(cfg: P.Config, g: P.Gateway, e: P.Timed): P.Gateway {
    P.After(cfg, g, e).(cache := g.cache)
  }

  /** A call that finds rates in the cache returns them and takes no step. */
  predicate Enabled(s: State, x: Step) {
    match x
    case Test(c) => c !in s.calls && s.gateway.cache.None?
    case Load(c) => c in s.calls && s.calls[c].None? && s.gateway.count >= 0
    case Store(c) => c in s.calls && s.calls[c].Some?
    case Handle(e) => !s.resetDue && !e.event.Rates?
    case Reset => s.resetDue
  }

  function Next(cfg: P.Config, s: State, x: Step): State
    requires Enabled(s, x)
  {
    match x
    case Test(c) => s.(calls := s.calls[c := None])
    case Load(c) => s.(calls := s.calls[c := Some(s.gateway.count)])
    case Store(c) =>
      s.(gateway := s.gateway.(cache := Some(P.Share(cfg, s.calls[c].value))), calls := s.calls - {c})
    case Handle(e) =>
      var g := Handled(cfg, s.gateway, e);
      s.(gateway := g, resetDue := g.count != s.gateway.count)
    case Reset => s.(gateway := s.gateway.(cache := None), resetDue := false)
  }

  /** `states` are the states a trace goes through, every step possible when its turn comes. */
  ghost predicate IsRun(cfg: P.Config, rid: string, trace: seq<Step>, states: seq<State>) {
    && |states| == |trace| + 1 && states[0] == Start(rid)
    && forall k :: 0 <= k < |trace| ==> Enabled(states[k], trace[k]) && states[k + 1] == Next(cfg, states[k], trace[k])
  }

  // ---------------------------------------------------------------- peers do not depend on the calls

  function HandledIn(trace: seq<Step>, n: nat): seq<P.Timed>
    requires n <= |trace|
  {
    if n == 0 then []
    else HandledIn(trace, n - 1) + (if trace[n - 1].Handle? then [trace[n - 1].timed] else [])
  }

  predicate SamePeers(g: P.Gateway, h: P.Gateway) {
    g.rid == h.rid && g.peers == h.peers && g.count == h.count && g.lastChange == h.lastChange
  }

  lemma HandledAlike(cfg: P.Config, g: P.Gateway, h: P.Gateway, e: P.Timed)
    requires SamePeers(g, h) && !e.event.Rates?
    ensures SamePeers(Handled(cfg, g, e), P.After(cfg, h, e))
  {
  }

  lemma NextKeepsPeers(cfg: P.Config, s: State, x: Step)
    requires Enabled(s, x) && !x.Handle?
    ensures SamePeers(Next(cfg, s, x).gateway, s.gateway)
  {
  }

  lemma CoarseSnoc(cfg: P.Config, rid: string, events: seq<P.Timed>, e: P.Timed)
    ensures P.Run(cfg, rid, events + [e]) == P.After(cfg, P.Run(cfg, rid, events), e)
  {
    assert (events + [e])[..|events|] == events;
  }

  /** Peers, count and date are those of the handlers run one by one; only the cache can differ. */
  lemma {:induction false} PeersFollowTheHandlers(cfg: P.Config, rid: string, trace: seq<Step>, states: seq<State>,
                                                  n: nat)
    requires IsRun(cfg, rid, trace, states) && n <= |trace|
    ensures SamePeers(states[n].gateway, P.Run(cfg, rid, HandledIn(trace, n)))
  {
    if n > 0 {
      var m := n - 1;
      PeersFollowTheHandlers(cfg, rid, trace, states, m);
      var before := HandledIn(trace, m);
      if trace[m].Handle? {
        HandledAlike(cfg, states[m].gateway, P.Run(cfg, rid, before), trace[m].timed);
        CoarseSnoc(cfg, rid, before, trace[m].timed);
      } else {
        NextKeepsPeers(cfg, states[m], trace[m]);
        assert HandledIn(trace, n) == before;
      }
    }
  }

  /** So on every trace the peer map is sound, and the invariant comes down to the cache. */
  lemma PeersAreSound(cfg: P.Config, rid: string, trace: seq<Step>, states: seq<State>, n: nat)
    requires IsRun(cfg, rid, trace, states) && n <= |trace|
    ensures states[n].gateway.count >= 0
    ensures P.Inv(cfg, states[n].gateway) <==> !Stale(cfg, states[n])
  {
    PeersFollowTheHandlers(cfg, rid, trace, states, n);
    P.RunKeepsInv(cfg, rid, HandledIn(trace, n));
  }

  /** The cache holds rates that are not those of the current count. */
  predicate Stale(cfg: P.Config, s: State) {
    s.gateway.cache.Some? && (s.gateway.count < 0 || s.gateway.cache.value != P.Share(cfg, s.gateway.count))
  }

  // ---------------------------------------------------------------- where cached rates come from

  /** A call that loads the count at `i` and stores its rates at `j`. */
  predicate IsCall(trace: seq<Step>, i: int, j: int) {
    && 0 <= i < j < |trace| && trace[i].Load? && trace[j] == Store(trace[i].call)
    && forall k :: i < k < j ==> trace[k] != trace[j]
  }

  /** Since `j`, and up to `n`, nothing has filled or emptied the cache. */
  predicate IsLastWord(trace: seq<Step>, n: nat, j: int) {
    0 <= j < n <= |trace| && forall k :: j < k < n ==> !trace[k].Store? && !trace[k].Reset?
  }

  predicate LoadedAt(trace: seq<Step>, n: nat, c: CallId, i: int) {
    0 <= i < n <= |trace| && trace[i] == Load(c) && forall k :: i < k < n ==> trace[k] != Store(c)
  }

  predicate HasLoaded(s: State, c: CallId, count: int) {
    c in s.calls && s.calls[c].Some? && s.calls[c].value == count
  }

  lemma NextCall(cfg: P.Config, s: State, x: Step, c: CallId, count: int)
    requires Enabled(s, x)
    ensures HasLoaded(Next(cfg, s, x), c, count) <==>
            if x == Load(c) then count == s.gateway.count else x != Store(c) && HasLoaded(s, c, count)
  {
  }

  lemma NextCache(cfg: P.Config, s: State, x: Step)
    requires Enabled(s, x)
    ensures x.Store? ==> Next(cfg, s, x).gateway.cache == Some(P.Share(cfg, s.calls[x.call].value))
    ensures x.Reset? ==> Next(cfg, s, x).gateway.cache == None
    ensures !x.Store? && !x.Reset? ==> Next(cfg, s, x).gateway.cache == s.gateway.cache
  {
  }

  /** A call under way has the count of its load. */
  lemma {:induction false} CallOrigin(cfg: P.Config, rid: string, trace: seq<Step>, states: seq<State>, n: nat,
                                      c: CallId, count: int) returns (i: int)
    requires IsRun(cfg, rid, trace, states) && n <= |trace| && HasLoaded(states[n], c, count)
    ensures LoadedAt(trace, n, c, i) && states[i].gateway.count == count
  {
    var m := n - 1;
    NextCall(cfg, states[m], trace[m], c, count);
    if trace[m] == Load(c) {
      i := m;
    } else {
      i := CallOrigin(cfg, rid, trace, states, m, c, count);
    }
  }

  /** Conversely a load that is not stored yet is still there, as it was. */
  lemma {:induction false} CallStays(cfg: P.Config, rid: string, trace: seq<Step>, states: seq<State>, n: nat,
                                     c: CallId, i: int)
    requires IsRun(cfg, rid, trace, states) && LoadedAt(trace, n, c, i)
    ensures HasLoaded(states[n], c, states[i].gateway.count)
  {
    var m := n - 1;
    NextCall(cfg, states[m], trace[m], c, states[i].gateway.count);
    if i < m {
      CallStays(cfg, rid, trace, states, m, c, i);
    }
  }

  ghost predicate CachedFrom(cfg: P.Config, states: seq<State>, n: nat, i: int) {
    && 0 <= i < |states| && n < |states| && states[i].gateway.count >= 0
    && states[n].gateway.cache == Some(P.Share(cfg, states[i].gateway.count))
  }

  /** Cached rates are the share for the count their call loaded. */
  lemma {:induction false} CacheOrigin(cfg: P.Config, rid: string, trace: seq<Step>, states: seq<State>, n: nat)
    returns (i: int, j: int)
    requires IsRun(cfg, rid, trace, states) && n <= |trace| && states[n].gateway.cache.Some?
    ensures IsCall(trace, i, j) && IsLastWord(trace, n, j) && CachedFrom(cfg, states, n, i)
  {
    var m := n - 1;
    NextCache(cfg, states[m], trace[m]);
    if trace[m].Store? {
      j := m;
      i := CallOrigin(cfg, rid, trace, states, m, trace[m].call, states[m].calls[trace[m].call].value);
    } else {
      i, j := CacheOrigin(cfg, rid, trace, states, m);
    }
  }

  lemma {:induction false} CacheStays(cfg: P.Config, rid: string, trace: seq<Step>, states: seq<State>, n: nat,
                                      i: int, j: int)
    requires IsRun(cfg, rid, trace, states) && IsCall(trace, i, j) && IsLastWord(trace, n, j)
    ensures CachedFrom(cfg, states, n, i)
  {
    var m := n - 1;
    NextCache(cfg, states[m], trace[m]);
    if j == m {
      CallStays(cfg, rid, trace, states, m, trace[i].call, i);
    } else {
      CacheStays(cfg, rid, trace, states, m, i, j);
    }
  }

  // ---------------------------------------------------------------- exactly when the cache is stale

  /** The rates in the cache come from a call whose count, as it was loaded, is not the count now. */
  ghost predicate Outrun(trace: seq<Step>, states: seq<State>, n: nat, i: int, j: int) {
    && IsCall(trace, i, j) && IsLastWord(trace, n, j) && |states| == |trace| + 1
    && states[i].gateway.count != states[n].gateway.count
  }

  lemma SharesDiffer(cfg: P.Config, m: nat, n: nat)
    requires P.ValidConfig(cfg)
    ensures P.Share(cfg, m) == P.Share(cfg, n) <==> m == n
  {
    var x, y := (m + 1) as real, (n + 1) as real;
    if cfg.rps / x == cfg.rps / y {
      assert (cfg.rps / x) * x == cfg.rps && (cfg.rps / y) * y == cfg.rps;
      assert (cfg.rps / x) * (x - y) == 0.0 && cfg.rps / x > 0.0;
      assert x == y;
    }
  }

  /** On every run the cache is stale exactly when the count its rates were computed from has been outrun. */
  lemma StaleExactlyWhenOutrun(cfg: P.Config, rid: string, trace: seq<Step>, states: seq<State>, n: nat)
    requires P.ValidConfig(cfg) && IsRun(cfg, rid, trace, states) && n <= |trace|
    ensures Stale(cfg, states[n]) <==> exists i, j :: Outrun(trace, states, n, i, j)
  {
    PeersAreSound(cfg, rid, trace, states, n);
    if Stale(cfg, states[n]) {
      var i, j := CacheOrigin(cfg, rid, trace, states, n);
      assert Outrun(trace, states, n, i, j);
    }
    if i, j :| Outrun(trace, states, n, i, j) {
      CacheStays(cfg, rid, trace, states, n, i, j);
      SharesDiffer(cfg, states[i].gateway.count, states[n].gateway.count);
    }
  }

  lemma NextCount(cfg: P.Config, s: State, x: Step)
    requires Enabled(s, x) && !x.Reset? && !Next(cfg, s, x).resetDue
    ensures !s.resetDue && Next(cfg, s, x).gateway.count == s.gateway.count
  {
  }

  /** Once no handler is between its two operations, nothing has changed the count since the last reset. */
  lemma {:induction false} QuietSince(cfg: P.Config, rid: string, trace: seq<Step>, states: seq<State>, n: nat, j: nat)
    requires IsRun(cfg, rid, trace, states) && j <= n <= |trace| && !states[n].resetDue
    requires forall k :: j <= k < n ==> !trace[k].Reset?
    ensures states[j].gateway.count == states[n].gateway.count
  {
    if j < n {
      NextCount(cfg, states[n - 1], trace[n - 1]);
      QuietSince(cfg, rid, trace, states, n - 1, j);
    }
  }

  /** The rates in the cache come from a call between whose load and store the count changed. */
  ghost predicate Overtaken(trace: seq<Step>, states: seq<State>, n: nat, i: int, j: int) {
    && IsCall(trace, i, j) && IsLastWord(trace, n, j) && |states| == |trace| + 1
    && states[i].gateway.count != states[j].gateway.count
  }

  /**
    Between handlers, the cache is stale exactly when the count changed between
    the load and the store of the call that filled it, and no reset came since.
  */
  lemma StaleExactlyWhenOvertaken(cfg: P.Config, rid: string, trace: seq<Step>, states: seq<State>, n: nat)
    requires P.ValidConfig(cfg) && IsRun(cfg, rid, trace, states) && n <= |trace| && !states[n].resetDue
    ensures Stale(cfg, states[n]) <==> exists i, j :: Overtaken(trace, states, n, i, j)
  {
    StaleExactlyWhenOutrun(cfg, rid, trace, states, n);
    forall i, j | IsCall(trace, i, j) && IsLastWord(trace, n, j)
      ensures Overtaken(trace, states, n, i, j) <==> Outrun(trace, states, n, i, j)
    {
      QuietSince(cfg, rid, trace, states, n, j);
    }
    if i, j :| Outrun(trace, states, n, i, j) {
      assert Overtaken(trace, states, n, i, j);
    }
    if i, j :| Overtaken(trace, states, n, i, j) {
      assert Outrun(trace, states, n, i, j);
    }
  }

  // ---------------------------------------------------------------- how long it stays so

  predicate Idle(s: State) { s.calls == map[] && !s.resetDue && s.gateway.cache.Some? }

  lemma NextWhileIdle(cfg: P.Config, s: State, x: Step)
    requires Enabled(s, x) && Idle(s) && Next(cfg, s, x).gateway.count == s.gateway.count
    ensures Idle(Next(cfg, s, x)) && Next(cfg, s, x).gateway.cache == s.gateway.cache
  {
  }

  /** With no call under way, whatever is in the cache stays, and is what every call returns, until the peers change. */
  lemma {:induction false} CacheStaysUntilPeersChange(cfg: P.Config, rid: string, trace: seq<Step>, states: seq<State>,
                                                      from: nat, n: nat)
    requires IsRun(cfg, rid, trace, states) && from <= n <= |trace| && Idle(states[from])
    requires forall k :: from <= k < n ==> states[k + 1].gateway.count == states[k].gateway.count
    ensures Idle(states[n]) && states[n].gateway.cache == states[from].gateway.cache
    ensures Stale(cfg, states[n]) <==> Stale(cfg, states[from])
    ensures states[n].gateway.count == states[from].gateway.count
  {
    if from < n {
      CacheStaysUntilPeersChange(cfg, rid, trace, states, from, n - 1);
      assert states[n - 1 + 1].gateway.count == states[n - 1].gateway.count;
      NextWhileIdle(cfg, states[n - 1], trace[n - 1]);
    }
  }

  // ---------------------------------------------------------------- a race that is lost

  /** A peer says hello between the load and the store of a call. */
  function LostRace(peer: string, at: int): seq<Step> {
    [Test(0), Load(0), Handle(P.Timed(at, P.HelloFrom(peer))), Reset, Store(0)]
  }

  function Raced(cfg: P.Config, rid: string, peer: string, at: int): State {
    State(P.Gateway(rid, map[peer := at], 1, at, Some(P.Share(cfg, 0))), map[], false)
  }

  /** The race leaves the rates of a single gateway in the cache of one that has a peer. */
  lemma LostRaceIsStale(cfg: P.Config, rid: string, peer: string, at: int) returns (states: seq<State>)
    requires P.ValidConfig(cfg) && peer != rid
    ensures IsRun(cfg, rid, LostRace(peer, at), states) && states[5] == Raced(cfg, rid, peer, at)
    ensures Stale(cfg, states[5]) && Idle(states[5])
  {
    var trace := LostRace(peer, at);
    var s0 := Start(rid);
    var s1 := Next(cfg, s0, trace[0]);
    var s2 := Next(cfg, s1, trace[1]);
    var s3 := Next(cfg, s2, trace[2]);
    var s4 := Next(cfg, s3, trace[3]);
    var s5 := Next(cfg, s4, trace[4]);
    states := [s0, s1, s2, s3, s4, s5];
    assert s2.calls == map[0 := Some(0)] && s5.calls == map[];
    SharesDiffer(cfg, 0, 1);
  }

  /** Two gateways that know each other then hand out half as much again as the whole rate. */
  lemma LostRaceOverspends(cfg: P.Config, a: string, b: string, at: int)
    requires P.ValidConfig(cfg) && a != b
    ensures var ga, gb := Raced(cfg, a, b, at).gateway, P.Run(cfg, b, [P.Timed(at, P.HelloFrom(a))]);
            && P.Covering([ga, gb]) && P.DistinctIds([ga, gb]) && P.Inv(cfg, gb)
            && P.TotalLimit([P.RatesOf(cfg, ga), P.RatesOf(cfg, gb)]) > cfg.rps
  {
    P.RunKeepsInv(cfg, b, [P.Timed(at, P.HelloFrom(a))]);
    CoarseSnoc(cfg, b, [], P.Timed(at, P.HelloFrom(a)));
    assert [] + [P.Timed(at, P.HelloFrom(a))] == [P.Timed(at, P.HelloFrom(a))];
    var rates := [P.Share(cfg, 0), P.Share(cfg, 1)];
    assert rates[1..] == [P.Share(cfg, 1)] && [P.Share(cfg, 1)][1..] == [];
    assert P.TotalLimit([P.Share(cfg, 1)]) == P.TotalLimit([]) + cfg.rps / 2.0;
    assert P.TotalLimit(rates) == P.TotalLimit(rates[1..]) + cfg.rps;
  }
}

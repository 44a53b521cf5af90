/**
  The way of a request through `Upstream` once its routing key is known
  (gateway/upstreamer/push/upstreamer.go): the candidates the index lists, their
  limiters kept in line with the number of peers, and the draw.
*/
module Fleets {
  import opened Registry
  import opened Directory
  import opened Latency
  import opened Selection
  import opened Balancer

  // ---------------------------------------------------------------- rates of every endpoint

  /** The endpoint objects and the peers their rates are to follow. */
  datatype Fleet = Fleet(
    services: Records, eps: set<EndpointInfo>, lims: set<RateLimiter>, peers: nat, lastChange: int)

  ghost predicate Within(e: EndpointInfo, eps: set<EndpointInfo>, lims: set<RateLimiter>) {
    e in eps && forall id :: id in e.limiters ==> e.limiters[id] in lims
  }

  ghost predicate InLineAt(f: Fleet, key: string, a: string)
    reads f.eps`lastLimiterAdjust, f.lims`limit, f.lims`burst
  {
    key in f.services && a in f.services[key].endpoints ==>
      Within(f.services[key].endpoints[a], f.eps, f.lims)
        && RatesOk(f.services[key].endpoints[a], f.peers, f.lastChange)
  }

  /** Every registered endpoint keeps its rates in line with the peers. */
  ghost predicate InLine(f: Fleet)
    reads f.eps`lastLimiterAdjust, f.lims`limit, f.lims`burst
  {
    forall key, a :: InLineAt(f, key, a)
  }

  lemma NewRatesOk(e: EndpointInfo, peers: int, lastChange: int)
    requires peers >= 0 && lastChange >= 0 && (lastChange == 0 ==> peers == 0)
    requires e.lastLimiterAdjust == 0 && AtAnnouncedRates(e)
    ensures RatesOk(e, peers, lastChange)
  {
  }

  /** The fleet with one more registered endpoint. */
  function Joined(f: Fleet, key: string, routes: RouteMap, e: EndpointInfo): Fleet {
    f.(services := Installed(f.services, key, routes, e), eps := f.eps + {e}, lims := f.lims + e.limiters.Values)
  }

  lemma InstalledInLine(f: Fleet, key: string, routes: RouteMap, e: EndpointInfo)
    requires InLine(f) && RatesOk(e, f.peers, f.lastChange)
    ensures InLine(Joined(f, key, routes, e))
  {
    forall k, a ensures InLineAt(Joined(f, key, routes, e), k, a) {
      assert InLineAt(f, k, a);
    }
  }

  lemma RemovedInLine(f: Fleet, key: string, address: string)
    requires InLine(f) && key in f.services
    ensures InLine(f.(services := Removed(f.services, key, address)))
  {
    forall k, a ensures InLineAt(f.(services := Removed(f.services, key, address)), k, a) {
      assert InLineAt(f, k, a);
    }
  }

  /** After a later change of the peers every endpoint is due for adjustment. */
  lemma DueAfterChange(f: Fleet, peers: nat, changed: int)
    requires InLine(f) && changed > f.lastChange
    ensures InLine(f.(peers := peers, lastChange := changed))
  {
    forall k, a ensures InLineAt(f.(peers := peers, lastChange := changed), k, a) {
      assert InLineAt(f, k, a);
    }
  }

  /** Rates depend on the dates of adjustment, the limits and the bursts only. */
  twostate lemma RatesFramed(f: Fleet)
    requires old(InLine(f))
    requires forall e :: e in f.eps ==> e.lastLimiterAdjust == old(e.lastLimiterAdjust)
    requires forall l :: l in f.lims ==> l.limit == old(l.limit) && l.burst == old(l.burst)
    ensures InLine(f)
  {
  }

  ghost predicate IsRegistered(f: Fleet, e: EndpointInfo) {
    e.service in f.services && e.address in f.services[e.service].endpoints
      && f.services[e.service].endpoints[e.address] == e
  }

  lemma ListedIsRegistered(f: Fleet, key: string, e: EndpointInfo)
    requires Structured(f.services, f.eps, f.lims)
    requires key in f.services && e.address in f.services[key].endpoints && f.services[key].endpoints[e.address] == e
    ensures IsRegistered(f, e) && OwnLimiters(e) && Within(e, f.eps, f.lims)
  {
    assert EndpointOk(f.services, key, e.address, f.eps, f.lims);
  }

  lemma OthersKeepTheirLimiters(f: Fleet, e: EndpointInfo)
    requires Structured(f.services, f.eps, f.lims) && IsRegistered(f, e) && OwnLimiters(e)
    ensures forall key, a ::
              key in f.services && a in f.services[key].endpoints && f.services[key].endpoints[a] != e ==>
              f.services[key].endpoints[a].limiters.Values !! e.limiters.Values
  {
    forall key, a | key in f.services && a in f.services[key].endpoints && f.services[key].endpoints[a] != e
      ensures f.services[key].endpoints[a].limiters.Values !! e.limiters.Values
    {
      assert EndpointOk(f.services, key, a, f.eps, f.lims);
    }
  }

  /** The limiter consulted for `identity`, if any, runs at the current share, when it is the endpoint's only one. */
  ghost predicate ConsultedAtRates(e: EndpointInfo, identity: string, peers: nat)
    reads e.limiters.Values`limit, e.limiters.Values`burst
  {
    identity in e.limiters && AtMostOneLimiter(e) ==> AtRatesFor(e.limiters[identity], peers)
  }

  /** Adjusting one registered endpoint leaves the others as they were. */
  method AdjustRegistered(e: EndpointInfo, identity: string, peers: int, lastChange: int, ghost f: Fleet)
    requires Structured(f.services, f.eps, f.lims) && IsRegistered(f, e) && OwnLimiters(e)
    requires f.peers == peers && f.lastChange == lastChange && InLine(f)
    modifies e`lastLimiterAdjust, e.limiters.Values`limit, e.limiters.Values`burst
    ensures InLine(f) && ConsultedAtRates(e, identity, peers)
  {
    OthersKeepTheirLimiters(f, e);
    assert InLineAt(f, e.service, e.address);
    AdjustLimiter(e, identity, peers, lastChange);
    forall key, a ensures InLineAt(f, key, a) {
      assert old(InLineAt(f, key, a));
    }
  }

  /** The limiters of both candidates are brought in line before either is consulted. */
  method AdjustBoth(e1: EndpointInfo, e2: EndpointInfo, identity: string, peers: int, lastChange: int, ghost f: Fleet)
    requires Structured(f.services, f.eps, f.lims) && f.peers == peers && f.lastChange == lastChange && InLine(f)
    requires IsRegistered(f, e1) && OwnLimiters(e1) && IsRegistered(f, e2) && OwnLimiters(e2)
              && e1.address != e2.address
    modifies e1`lastLimiterAdjust, e1.limiters.Values`limit, e1.limiters.Values`burst
    modifies e2`lastLimiterAdjust, e2.limiters.Values`limit, e2.limiters.Values`burst
    ensures InLine(f) && ConsultedAtRates(e1, identity, peers) && ConsultedAtRates(e2, identity, peers)
  {
    AdjustRegistered(e1, identity, peers, lastChange, f);
    AdjustRegistered(e2, identity, peers, lastChange, f);
  }

  // ---------------------------------------------------------------- the two-candidate path

  /** Tokens are no part of the rates. */
  method DrawInLine(e1: EndpointInfo, e2: EndpointInfo, identity: string, w: Weights, ghost f: Fleet)
    returns (answer: Answer, ghost draw: int)
    requires InLine(f) && e1.address != e2.address && OwnLimiters(e1) && OwnLimiters(e2)
    modifies e1.limiters.Values`tokens, e2.limiters.Values`tokens
    ensures InLine(f)
    ensures Chosen(w, e1.address, Admits(old(TokensFor(e1, identity)), BurstFor(e1, identity)),
                   e2.address, Admits(old(TokensFor(e2, identity)), BurstFor(e2, identity)), draw, answer)
    ensures forall l :: Holds(e1, l) || Holds(e2, l) ==>
              l.tokens == TokensLeft(old(l.tokens), l.burst, l.address, l.identity, identity, answer)
  {
    answer, draw := Draw(e1, e2, identity, w);
    RatesFramed(f);
  }

  /** Adjusts the limiters of two registered endpoints, then draws between them. */
  method Balance(e1: EndpointInfo, e2: EndpointInfo, identity: string, w: Weights, peers: int, lastChange: int,
                 ghost f: Fleet)
    returns (answer: Answer, ghost draw: int)
    requires Structured(f.services, f.eps, f.lims) && f.peers == peers && f.lastChange == lastChange && InLine(f)
    requires IsRegistered(f, e1) && OwnLimiters(e1) && IsRegistered(f, e2) && OwnLimiters(e2)
              && e1.address != e2.address
    requires Within(e1, f.eps, f.lims) && Within(e2, f.eps, f.lims)
    modifies f.eps`lastLimiterAdjust, f.lims`limit, f.lims`burst, f.lims`tokens
    ensures InLine(f) && ConsultedAtRates(e1, identity, peers) && ConsultedAtRates(e2, identity, peers)
    ensures Chosen(w, e1.address, Admits(old(TokensFor(e1, identity)), BurstFor(e1, identity)),
                   e2.address, Admits(old(TokensFor(e2, identity)), BurstFor(e2, identity)), draw, answer)
    ensures forall l :: l in f.lims ==>
              l.tokens == if Holds(e1, l) || Holds(e2, l)
                          then TokensLeft(old(l.tokens), l.burst, l.address, l.identity, identity, answer)
                          else old(l.tokens)
  {
    ghost var tokens1, tokens2 := TokensFor(e1, identity), TokensFor(e2, identity);
    AdjustBoth(e1, e2, identity, peers, lastChange, f);
    assert tokens1 == TokensFor(e1, identity) && tokens2 == TokensFor(e2, identity);
    answer, draw := DrawInLine(e1, e2, identity, w, f);
  }

  /** Two distinct candidates of a list, however long it is. */
  method PickTwo(l: seq<EndpointInfo>) returns (e1: EndpointInfo, e2: EndpointInfo)
    requires |l| >= 2 && DistinctAddresses(l)
    ensures e1 in l && e2 in l && e1.address != e2.address
  {
    var n1, n2 := 0, 1;
    if |l| > 2 {
      n1, n2 := Pick(|l|);
    }
    e1, e2 := l[n1], l[n2];
  }

  // ---------------------------------------------------------------- from a key to an answer

  lemma ListedIsNotEmpty(l: seq<EndpointInfo>, endpoints: map<string, EndpointInfo>)
    requires Lists(l, endpoints) && endpoints.Keys != {}
    ensures l != []
  {
    var a :| a in endpoints.Keys;
    assert endpoints[a] in l;
  }

  /** What the index lists for a key are registered objects, no one twice, of a service that exposes the key. */
  lemma CandidatesAre(cfg: Settings, f: Fleet, apis: Index, r: Services, api: string)
    requires IsObjectIndex(cfg, f.services, apis) && SameShape(f.services, r) && Structured(f.services, f.eps, f.lims)
    requires Populated(r)
    ensures DistinctAddresses(Candidates(apis, api))
    ensures forall e :: e in Candidates(apis, api) ==> IsCandidate(f, e)
    ensures Listed(cfg, r, api, Candidates(apis, api))
  {
    if api in apis {
      var key := ObjectIndexLists(cfg, f.services, apis, api);
      ServesIsExposing(cfg, f.services, r, key, api);
      assert HasEndpoints(r, key) && ShapeOk(f.services, r, key);
      ListedIsNotEmpty(apis[api], f.services[key].endpoints);
      forall e | e in apis[api] ensures IsCandidate(f, e) && Registered(r, key, e.address) {
        ListedIsRegistered(f, key, e);
      }
    } else {
      assert KeyOk(cfg, f.services, apis, api);
      forall key ensures !Serves(cfg, r, key, api) {
        ServesIsExposing(cfg, f.services, r, key, api);
      }
    }
  }

  /** `l` is empty exactly when no service exposes the key, and else lists endpoints of one that does. */
  ghost predicate Listed(cfg: Settings, r: Services, api: string, l: seq<EndpointInfo>) {
    && (l == [] ==> forall key :: !Serves(cfg, r, key, api))
    && (l != [] ==>
          exists key :: Serves(cfg, r, key, api) && forall i :: 0 <= i < |l| ==> Registered(r, key, l[i].address))
  }

  lemma AnswerFits(cfg: Settings, r: Services, api: string, l: seq<EndpointInfo>, answer: Answer)
    requires Listed(cfg, r, api, l) && From(l, answer)
    ensures Fits(cfg, r, api, answer)
  {
  }

  predicate DistinctAddresses(l: seq<EndpointInfo>) {
    forall i, j :: 0 <= i < j < |l| ==> l[i].address != l[j].address
  }

  function Candidates(apis: Index, api: string): seq<EndpointInfo> { if api in apis then apis[api] else [] }

  /** From a routing key to an answer; `pair` is the pair drawn between, or empty. */
  method Route(cfg: Settings, apis: Index, api: string, identity: string, peers: int, lastChange: int,
               book: LatencyBook, ghost f: Fleet, ghost r: Services)
    returns (answer: Answer, ghost pair: seq<EndpointInfo>, ghost draw: int)
    requires IsObjectIndex(cfg, f.services, apis) && SameShape(f.services, r) && Structured(f.services, f.eps, f.lims)
    requires Populated(r) && f.peers == peers && f.lastChange == lastChange && InLine(f) && book.Valid()
    modifies f.eps`lastLimiterAdjust, f.lims`limit, f.lims`burst, f.lims`tokens
    ensures InLine(f) && Fits(cfg, r, api, answer)
    ensures IsPair(pair, Candidates(apis, api))
    ensures pair != [] ==> ConsultedAtRates(pair[0], identity, peers) && ConsultedAtRates(pair[1], identity, peers)
    ensures pair != [] ==>
              Drawn(old(WeightsFor(book, pair[0], pair[1])), pair, old(TokensFor(pair[0], identity)),
                    old(TokensFor(pair[1], identity)), identity, draw, answer)
    ensures forall l :: l in f.lims ==> l.tokens == TokensAfter(old(l.tokens), l.burst, l, pair, identity, answer)
  {
    CandidatesAre(cfg, f, apis, r, api);
    var l := if api in apis then apis[api] else [];
    answer, pair, draw := Choose(l, identity, peers, lastChange, book, f);
    AnswerFits(cfg, r, api, l, answer);
  }

  /** From the candidates for a key to an answer. */
  method Choose(l: seq<EndpointInfo>, identity: string, peers: int, lastChange: int, book: LatencyBook, ghost f: Fleet)
    returns (answer: Answer, ghost pair: seq<EndpointInfo>, ghost draw: int)
    requires Structured(f.services, f.eps, f.lims) && f.peers == peers && f.lastChange == lastChange && InLine(f)
    requires DistinctAddresses(l) && (forall e :: e in l ==> IsCandidate(f, e)) && book.Valid()
    modifies f.eps`lastLimiterAdjust, f.lims`limit, f.lims`burst, f.lims`tokens
    ensures InLine(f) && IsPair(pair, l) && From(l, answer)
    ensures pair != [] ==> ConsultedAtRates(pair[0], identity, peers) && ConsultedAtRates(pair[1], identity, peers)
    ensures pair != [] ==>
              Drawn(old(WeightsFor(book, pair[0], pair[1])), pair, old(TokensFor(pair[0], identity)),
                    old(TokensFor(pair[1], identity)), identity, draw, answer)
    ensures forall r :: r in f.lims ==> r.tokens == TokensAfter(old(r.tokens), r.burst, r, pair, identity, answer)
  {
    pair, draw := [], 0;
    if |l| == 0 {
      return NoUpstream, pair, draw;
    } else if |l| == 1 {
      return To(l[0].address), pair, draw;
    }
    var e1, e2 := PickTwo(l);
    pair := [e1, e2];
    var w := Weigh(e1, e2, book);
    answer, draw := Balance(e1, e2, identity, w, peers, lastChange, f);
  }

  /** Nothing exactly from an empty list, and only addresses on the list. */
  ghost predicate From(l: seq<EndpointInfo>, answer: Answer) {
    (answer.NoUpstream? <==> l == []) && (answer.To? ==> exists i :: 0 <= i < |l| && l[i].address == answer.address)
  }

  ghost predicate IsCandidate(f: Fleet, e: EndpointInfo) {
    IsRegistered(f, e) && OwnLimiters(e) && Within(e, f.eps, f.lims)
  }

  /** A draw takes place exactly when there are two candidates or more, between two different ones. */
  ghost predicate IsPair(pair: seq<EndpointInfo>, l: seq<EndpointInfo>) {
    && (if |l| >= 2 then |pair| == 2 else pair == [])
    && (|pair| == 2 ==> pair[0] in l && pair[1] in l && pair[0].address != pair[1].address)
  }

  /** What a draw between a pair answers, their bursts being those in force when the limiters are consulted. */
  ghost predicate Drawn(w: Weights, pair: seq<EndpointInfo>, tokens1: nat, tokens2: nat, identity: string,
                        draw: int, answer: Answer)
    requires |pair| == 2
    reads pair[0].limiters.Values`burst, pair[1].limiters.Values`burst
  {
    Chosen(w, pair[0].address, Admits(tokens1, BurstFor(pair[0], identity)),
           pair[1].address, Admits(tokens2, BurstFor(pair[1], identity)), draw, answer)
  }

  /** What becomes of a limiter: one token less, under its burst, when it held the request that went to its endpoint. */
  lemma OneTokenOrNone(tokens: nat, burst: int, l: RateLimiter, pair: seq<EndpointInfo>, identity: string,
                       answer: Answer)
    ensures TokensAfter(tokens, burst, l, pair, identity, answer) ==
            if |pair| == 2 && (Holds(pair[0], l) || Holds(pair[1], l)) && l.identity == identity
               && answer == To(l.address) && tokens > 0 && burst > 0
            then (if burst < tokens then burst else tokens) - 1 else tokens
  {
  }

  ghost function TokensAfter(tokens: nat, burst: int, l: RateLimiter, pair: seq<EndpointInfo>, identity: string,
                             answer: Answer): nat {
    if |pair| == 2 && (Holds(pair[0], l) || Holds(pair[1], l))
    then TokensLeft(tokens, burst, l.address, l.identity, identity, answer) else tokens
  }
}

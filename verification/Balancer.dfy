/**
  The two-candidate path of `Upstream` (gateway/upstreamer/push/upstreamer.go):
  the announced rate limits are brought in line with the number of gateways,
  then one candidate is drawn, and the other tried when its bucket is empty.
*/
module Balancer {
  import opened Registry
  import opened Directory
  import opened Latency
  import opened Selection
  import P = Peers

  // ---------------------------------------------------------------- limiter rates

  /** Integer division as the source does it, towards zero. */
  function Quotient(a: int, b: int): int
    requires b > 0
  {
    if a >= 0 then a / b else -((-a) / b)
  }

  /** The announced rates divided by the gateways there are: the peers and this one. */
  function RatesFor(a: Announced, peers: int): Announced
    requires peers >= 0
  {
    Announced(a.limit / (peers + 1) as real, Quotient(a.burst, peers + 1))
  }

  ghost predicate AtRatesFor(l: RateLimiter, peers: int)
    requires peers >= 0
    reads l`limit, l`burst
  {
    Announced(l.limit, l.burst) == RatesFor(l.announced, peers)
  }

  /** The rates a limiter runs at on each of several gateways. */
  ghost function RatesOf(limiters: seq<RateLimiter>): seq<P.RateSet>
    reads limiters
  {
    seq(|limiters|, i requires 0 <= i < |limiters| reads limiters => P.RateSet(limiters[i].limit, limiters[i].burst))
  }

  /**
    What a service announces is what it gets in all: when gateways that know
    each other have consulted their limiters for it, these run at rates that
    add up to no more.
  */
  lemma AnnouncedBudget(cfg: P.Config, a: Announced, live: seq<P.Gateway>, limiters: seq<RateLimiter>)
    requires a.limit >= 0.0 && a.burst >= 0
    requires (forall g :: g in live ==> P.Inv(cfg, g)) && P.DistinctIds(live) && P.Covering(live)
    requires |limiters| == |live|
    requires forall i :: 0 <= i < |live| ==>
               live[i].count >= 0 && limiters[i].announced == a && AtRatesFor(limiters[i], live[i].count)
    ensures P.TotalBurst(RatesOf(limiters)) <= a.burst
    ensures P.TotalLimit(RatesOf(limiters)) <= a.limit
  {
    var counts, whole := P.CountsOf(live), P.Config(a.limit, a.burst, 0);
    forall i | 0 <= i < |live| ensures counts[i] + 1 >= |live| {
      assert live[i] in live;
      P.EnoughPeers(cfg, live, i);
    }
    assert RatesOf(limiters) == P.Shares(whole, counts);
    P.SharesFit(whole, counts);
  }

  /** A share of the burst is worth a token exactly when there is one for each gateway; below that all is refused. */
  lemma ShareAdmitsExactlyWhen(l: RateLimiter, peers: nat, tokens: nat)
    requires AtRatesFor(l, peers) && tokens > 0
    ensures Admits(tokens, l.burst) <==> l.announced.burst > peers
  {
    if l.announced.burst >= 0 {
      WholeSharesExactlyWhen(l.announced.burst, peers + 1);
    }
  }

  lemma WholeSharesExactlyWhen(burst: nat, gateways: nat)
    requires gateways > 0
    ensures burst / gateways > 0 <==> burst >= gateways
  {
    var q := burst / gateways;
    assert burst == gateways * q + burst % gateways;
    if q == 0 {
      assert gateways * q == 0;
    }
  }

  /** What that comes to: as many whole parts as there are gateways fit into the burst, and the limit in equal parts. */
  lemma SharesOfAnnounced(l: RateLimiter, peers: nat)
    requires AtRatesFor(l, peers)
    ensures var n := peers + 1;
            && n as real * l.limit == l.announced.limit
            && (l.announced.burst >= 0 ==> n * l.burst <= l.announced.burst < n * (l.burst + 1))
            && (l.announced.burst < 0 ==> n * (l.burst - 1) < l.announced.burst <= n * l.burst)
  {
    var n := peers + 1;
    assert n as real * (l.announced.limit / n as real) == l.announced.limit;
    P.PartsOf(if l.announced.burst < 0 then -l.announced.burst else l.announced.burst, n);
    assert l.announced.burst < 0 ==> n * (l.burst - 1) == -(n * (-l.burst + 1)) && n * l.burst == -(n * -l.burst);
  }

  predicate AtMostOneLimiter(e: EndpointInfo) {
    forall id, other :: id in e.limiters && other in e.limiters ==> id == other
  }

  /** The limiters of an endpoint are its own. */
  ghost predicate OwnLimiters(e: EndpointInfo) {
    forall id :: id in e.limiters ==> LimiterOf(e.limiters[id], e.service, e.address, id)
  }

  /**
    An endpoint with at most one limiter either runs at the current share or
    has not been adjusted since the peers last changed.
  */
  ghost predicate RatesOk(e: EndpointInfo, peers: int, lastChange: int)
    requires peers >= 0
    reads e`lastLimiterAdjust, e.limiters.Values`limit, e.limiters.Values`burst
  {
    && e.lastLimiterAdjust <= lastChange
    && (AtMostOneLimiter(e) && e.lastLimiterAdjust == lastChange ==>
          forall id :: id in e.limiters ==> AtRatesFor(e.limiters[id], peers))
  }

  /** Before a limiter is consulted it is adjusted, when the peers changed since its endpoint last was. */
  method SetRates(e: EndpointInfo, identity: string, peers: int, lastChange: int)
    requires peers >= 0 && OwnLimiters(e) && e.lastLimiterAdjust <= lastChange
    modifies e`lastLimiterAdjust, e.limiters.Values`limit, e.limiters.Values`burst
    ensures identity in e.limiters ==>
              (AtRatesFor(e.limiters[identity], peers) <==>
               old(e.lastLimiterAdjust) < lastChange || old(AtRatesFor(e.limiters[identity], peers)))
    ensures forall id :: id in e.limiters && (id != identity || old(e.lastLimiterAdjust) >= lastChange) ==>
              e.limiters[id].limit == old(e.limiters[id].limit) && e.limiters[id].burst == old(e.limiters[id].burst)
    ensures e.lastLimiterAdjust == if identity in e.limiters then lastChange else old(e.lastLimiterAdjust)
  {
    if identity in e.limiters && e.lastLimiterAdjust < lastChange {
      var l := e.limiters[identity];
      l.burst := Quotient(l.announced.burst, peers + 1);
      l.limit := l.announced.limit / (peers + 1) as real;
      e.lastLimiterAdjust := lastChange;
      assert AtRatesFor(l, peers);
    }
  }

  /** For an endpoint with at most one limiter this brings it to the current share, whenever it was adjusted last. */
  method AdjustLimiter(e: EndpointInfo, identity: string, peers: int, lastChange: int)
    requires peers >= 0 && OwnLimiters(e) && RatesOk(e, peers, lastChange)
    modifies e`lastLimiterAdjust, e.limiters.Values`limit, e.limiters.Values`burst
    ensures RatesOk(e, peers, lastChange)
    ensures identity in e.limiters && AtMostOneLimiter(e) ==> AtRatesFor(e.limiters[identity], peers)
    ensures identity in e.limiters ==>
              (AtRatesFor(e.limiters[identity], peers) <==>
               old(e.lastLimiterAdjust) < lastChange || old(AtRatesFor(e.limiters[identity], peers)))
    ensures forall id :: id in e.limiters && (id != identity || old(e.lastLimiterAdjust) >= lastChange) ==>
              e.limiters[id].limit == old(e.limiters[id].limit) && e.limiters[id].burst == old(e.limiters[id].burst)
    ensures e.lastLimiterAdjust == if identity in e.limiters then lastChange else old(e.lastLimiterAdjust)
  {
    SetRates(e, identity, peers, lastChange);
  }

  /** The adjustment date is per endpoint: after a request for one limited identity, another keeps its old rates. */
  method SecondIdentityStaysStale(e: EndpointInfo, first: string, second: string, peers: int, lastChange: int)
    requires peers > 0 && OwnLimiters(e) && RatesOk(e, peers, lastChange)
    requires first in e.limiters && second in e.limiters && first != second
    requires AtRatesFor(e.limiters[second], 0) && e.limiters[second].announced.limit > 0.0
    modifies e`lastLimiterAdjust, e.limiters.Values`limit, e.limiters.Values`burst
    ensures !AtRatesFor(e.limiters[second], peers)
  {
    var x, n := e.limiters[second].announced.limit, (peers + 1) as real;
    assert (x / n) * n == x && n > 1.0;
    assert x / n < x;
    AdjustLimiter(e, first, peers, lastChange);
    AdjustLimiter(e, second, peers, lastChange);
  }

  // ---------------------------------------------------------------- the choice

  datatype Answer = NoUpstream | To(address: string) | TooManyRequests | Panic

  /** Nothing exactly when no service exposes the key; an address only of a service that does. */
  ghost predicate Fits(cfg: Settings, services: Services, api: string, answer: Answer) {
    && (answer.NoUpstream? <==> forall key :: !Serves(cfg, services, key, api))
    && (answer.To? ==> exists key :: Serves(cfg, services, key, api) && Registered(services, key, answer.address))
  }

  /** The bucket a request for `identity` is held against; without a limiter nothing is held. */
  ghost function TokensFor(e: EndpointInfo, identity: string): nat
    reads e.limiters.Values`tokens
  {
    if identity in e.limiters then e.limiters[identity].tokens else 1
  }

  ghost function BurstFor(e: EndpointInfo, identity: string): int
    reads e.limiters.Values`burst
  {
    if identity in e.limiters then e.limiters[identity].burst else 1
  }

  /** Which of two candidates a draw tries first: with equal weights the second counts as the heavier. */
  function TriedFirst(w: Weights, draw: int): int {
    var lighter := if w.first > w.second then 2 else 1;
    var least := if w.first > w.second then w.second else w.first;
    if HeavierFirst(least, draw) then 3 - lighter else lighter
  }

  function Outcome(first: string, firstOk: bool, second: string, secondOk: bool): Answer {
    if firstOk then To(first) else if secondOk then To(second) else TooManyRequests
  }

  /** The answer for two candidates of weights `w`, given whether each may take the request. */
  predicate Chosen(w: Weights, first: string, firstOk: bool, second: string, secondOk: bool, draw: int,
                   answer: Answer) {
    && (answer.Panic? <==> w.first + w.second <= -1.0)
    && (!answer.Panic? ==> IsDraw(draw, DrawBound(w.first + w.second)))
    && (!answer.Panic? ==> answer == if TriedFirst(w, draw) == 1 then Outcome(first, firstOk, second, secondOk)
                                     else Outcome(second, secondOk, first, firstOk))
  }

  /** The request is refused exactly when both candidates refuse it, and never sent to one that does. */
  lemma RefusedExactlyWhenBothRefuse(w: Weights, first: string, firstOk: bool, second: string, secondOk: bool,
                                     draw: int, answer: Answer)
    requires Chosen(w, first, firstOk, second, secondOk, draw, answer) && answer != Panic && first != second
    ensures answer == TooManyRequests <==> !firstOk && !secondOk
    ensures answer == To(first) ==> firstOk
    ensures answer == To(second) ==> secondOk
    ensures answer != TooManyRequests ==> answer == To(first) || answer == To(second)
  {
  }

  /**
    What each draw answers, for weights that are not negative: when both
    candidates may take the request, the heavier one up to the smaller weight
    and the lighter one above it, the second counting as the heavier when they
    weigh the same; when one may, that one; and when neither may, the error.
  */
  lemma AnswerOfEachDraw(w: Weights, first: string, second: string, d: int, answer: Answer)
    requires w.first >= 0.0 && w.second >= 0.0 && 0 <= d <= (w.first + w.second).Floor
    ensures Chosen(w, first, true, second, true, d, answer) <==>
            answer == if w.first > w.second then (if d as real <= w.second then To(first) else To(second))
                      else (if d as real <= w.first then To(second) else To(first))
    ensures Chosen(w, first, true, second, false, d, answer) <==> answer == To(first)
    ensures Chosen(w, first, false, second, true, d, answer) <==> answer == To(second)
    ensures Chosen(w, first, false, second, false, d, answer) <==> answer == TooManyRequests
  {
  }

  /**
    So of the floor(sum) + 1 draws between two willing candidates exactly
    floor(least) + 1 answer with the heavier one, and all others with the lighter.
  */
  lemma HeavierAnswers(w: Weights, first: string, second: string)
    requires w.first >= 0.0 && w.second >= 0.0 && first != second
    ensures var heavier := if w.first > w.second then first else second;
            var lighter := if w.first > w.second then second else first;
            var least := if w.first > w.second then w.second else w.first;
            && |set d | 0 <= d <= (w.first + w.second).Floor
                        && Chosen(w, first, true, second, true, d, To(heavier))| == least.Floor + 1
            && forall d :: 0 <= d <= (w.first + w.second).Floor ==>
                 (Chosen(w, first, true, second, true, d, To(lighter)) <==>
                  !Chosen(w, first, true, second, true, d, To(heavier)))
  {
    var heavier := if w.first > w.second then first else second;
    var least := if w.first > w.second then w.second else w.first;
    var most := if w.first > w.second then w.first else w.second;
    assert least + most == w.first + w.second;
    HeavierShare(least, most);
    forall d, a | 0 <= d <= (w.first + w.second).Floor
      ensures Chosen(w, first, true, second, true, d, a) <==>
              a == if w.first > w.second then (if d as real <= w.second then To(first) else To(second))
                   else (if d as real <= w.first then To(second) else To(first))
    {
      AnswerOfEachDraw(w, first, second, d, a);
    }
    assert (set d | 0 <= d <= (w.first + w.second).Floor && Chosen(w, first, true, second, true, d, To(heavier)))
           == HeavierDraws(least, DrawBound(least + most));
  }

  /**
    Of all draws, exactly floor(least) + 1 try the heavier candidate first; it is the second when the
    weights are equal.
  */
  lemma HeavierTriedFirst(w: Weights)
    requires w.first >= 0.0 && w.second >= 0.0
    ensures var bound := DrawBound(w.first + w.second);
            var heavier := if w.first > w.second then 1 else 2;
            var least := if w.first > w.second then w.second else w.first;
            |set d | d in Draws(bound) && TriedFirst(w, d) == heavier| == least.Floor + 1
  {
    var bound := DrawBound(w.first + w.second);
    var heavier := if w.first > w.second then 1 else 2;
    var least := if w.first > w.second then w.second else w.first;
    var most := if w.first > w.second then w.first else w.second;
    assert least + most == w.first + w.second;
    HeavierShare(least, most);
    assert (set d | d in Draws(bound) && TriedFirst(w, d) == heavier) == HeavierDraws(least, bound);
  }

  ghost predicate Holds(e: EndpointInfo, l: RateLimiter) {
    l.identity in e.limiters && e.limiters[l.identity] == l
  }

  /** A token is taken from the limiter of the address returned, and from no other. */
  function TokensLeft(tokens: nat, burst: int, address: string, identity: string, wanted: string, answer: Answer): nat {
    Spent(tokens, burst, answer == To(address) && identity == wanted)
  }

  function Spent(tokens: nat, burst: int, taken: bool): nat {
    if taken && Admits(tokens, burst) then OneTaken(tokens, burst) else tokens
  }

  /** The limiter check of one candidate. */
  method Check(l: RateLimiter?) returns (ok: bool)
    modifies Some1(l)`tokens
    ensures ok == old(HasToken(l))
    ensures l != null ==> l.tokens == if ok then OneTaken(old(l.tokens), l.burst) else old(l.tokens)
  {
    ok := true;
    if l != null {
      ok := l.Allow();
    }
  }

  /** The weights the candidates are compared by: their mean latencies, or their loads. */
  ghost function WeightsFor(book: LatencyBook, e1: EndpointInfo, e2: EndpointInfo): Weights
    requires book.sampleSize > 0
    reads book, e1`lastLoad, e2`lastLoad
  {
    WeightsOf(Mean(book.SamplesOf(e1.address), book.sampleSize), Mean(book.SamplesOf(e2.address), book.sampleSize),
              e1.lastLoad, e2.lastLoad)
  }

  /** Each candidate is weighed by its own mean, or its own load. */
  lemma EachByItsOwn(book: LatencyBook, e1: EndpointInfo, e2: EndpointInfo)
    requires book.sampleSize > 0
    ensures var mean1 := Mean(book.SamplesOf(e1.address), book.sampleSize);
            var mean2 := Mean(book.SamplesOf(e2.address), book.sampleSize);
            WeightsFor(book, e1, e2) ==
              if mean1.Some? && mean2.Some? && mean1.value != 0.0 && mean2.value != 0.0
              then Weights(mean1.value, mean2.value) else Weights(e1.lastLoad, e2.lastLoad)
  {
    LatenciesWeighWhenBothKnown(Mean(book.SamplesOf(e1.address), book.sampleSize),
                                Mean(book.SamplesOf(e2.address), book.sampleSize), e1.lastLoad, e2.lastLoad);
  }

  /** The limiter a request for `identity` is held against, if any. */
  function LimiterFor(e: EndpointInfo, identity: string): RateLimiter? {
    if identity in e.limiters then e.limiters[identity] else null
  }

  /** Tries a first and, when its bucket is empty, a second address, each with its own limiter. */
  method TryInOrder(first: string, firstLimiter: RateLimiter?, second: string, secondLimiter: RateLimiter?)
    returns (answer: Answer)
    requires first != second && (firstLimiter != null ==> firstLimiter != secondLimiter)
    modifies Some1(firstLimiter)`tokens, Some1(secondLimiter)`tokens
    ensures answer == Outcome(first, old(HasToken(firstLimiter)), second, old(HasToken(secondLimiter)))
    ensures firstLimiter != null ==>
              firstLimiter.tokens == Spent(old(firstLimiter.tokens), firstLimiter.burst, answer == To(first))
    ensures secondLimiter != null ==>
              secondLimiter.tokens == Spent(old(secondLimiter.tokens), secondLimiter.burst, answer == To(second))
  {
    var ok := Check(firstLimiter);
    if ok {
      return To(first);
    }
    ok := Check(secondLimiter);
    if ok {
      return To(second);
    }
    answer := TooManyRequests;
  }

  function Some1(l: RateLimiter?): set<RateLimiter> { if l == null then {} else {l} }

  ghost predicate HasToken(l: RateLimiter?)
    reads Some1(l)`tokens, Some1(l)`burst
  {
    l == null || Admits(l.tokens, l.burst)
  }

  /** The two arrays hold the addresses and the limiters of `e1` and `e2`, in this order. */
  ghost predicate Ranks(addresses: seq<string>, rls: seq<RateLimiter?>, identity: string, e1: EndpointInfo,
                        e2: EndpointInfo) {
    addresses == [e1.address, e2.address] && rls == [LimiterFor(e1, identity), LimiterFor(e2, identity)]
  }

  /** Tries the candidate at `idx`, then the other: whichever way they were ranked, limiter and address go together. */
  method TryRanked(addresses: seq<string>, rls: seq<RateLimiter?>, idx: int, identity: string,
                   ghost e1: EndpointInfo, ghost e2: EndpointInfo) returns (answer: Answer)
    requires e1.address != e2.address && OwnLimiters(e1) && OwnLimiters(e2) && 0 <= idx <= 1
    requires Ranks(addresses, rls, identity, e1, e2) || Ranks(addresses, rls, identity, e2, e1)
    modifies e1.limiters.Values`tokens, e2.limiters.Values`tokens
    ensures answer == Outcome(addresses[idx], old(HasToken(rls[idx])), addresses[1 - idx], old(HasToken(rls[1 - idx])))
    ensures forall l :: Holds(e1, l) || Holds(e2, l) ==>
              l.tokens == TokensLeft(old(l.tokens), l.burst, l.address, l.identity, identity, answer)
  {
    answer := TryInOrder(addresses[idx], rls[idx], addresses[1 - idx], rls[1 - idx]);
  }

  /** So a token goes from the limiter of the endpoint that is returned, which had one, and from no other. */
  method TryAndTake(addresses: seq<string>, rls: seq<RateLimiter?>, idx: int, identity: string,
                    ghost e1: EndpointInfo, ghost e2: EndpointInfo) returns (answer: Answer)
    requires e1.address != e2.address && OwnLimiters(e1) && OwnLimiters(e2) && 0 <= idx <= 1
    requires Ranks(addresses, rls, identity, e1, e2) || Ranks(addresses, rls, identity, e2, e1)
    modifies e1.limiters.Values`tokens, e2.limiters.Values`tokens
    ensures answer == Outcome(addresses[idx], old(HasToken(rls[idx])), addresses[1 - idx], old(HasToken(rls[1 - idx])))
    ensures forall l :: Holds(e1, l) || Holds(e2, l) ==>
              l.tokens == TokensLeft(old(l.tokens), l.burst, l.address, l.identity, identity, answer)
    ensures forall e, id :: (e == e1 || e == e2) && id in e.limiters ==>
              e.limiters[id].tokens ==
                if id == identity && answer == To(e.address)
                then (if e.limiters[id].burst < old(e.limiters[id].tokens) then e.limiters[id].burst
                      else old(e.limiters[id].tokens)) - 1
                else old(e.limiters[id].tokens)
    ensures forall e :: (e == e1 || e == e2) && answer == To(e.address) && identity in e.limiters ==>
              old(e.limiters[identity].tokens) > 0 && e.limiters[identity].burst > 0
    ensures answer == TooManyRequests ==> forall e :: e == e1 || e == e2 ==>
              && identity in e.limiters
              && (old(e.limiters[identity].tokens) == 0 || e.limiters[identity].burst <= 0)
  {
    answer := TryRanked(addresses, rls, idx, identity, e1, e2);
  }

  /** Draws between two candidates; addresses, limiters and weights are sorted together. */
  method Draw(e1: EndpointInfo, e2: EndpointInfo, identity: string, w: Weights)
    returns (answer: Answer, ghost draw: int)
    requires e1.address != e2.address && OwnLimiters(e1) && OwnLimiters(e2)
    modifies e1.limiters.Values`tokens, e2.limiters.Values`tokens
    ensures Chosen(w, e1.address, Admits(old(TokensFor(e1, identity)), BurstFor(e1, identity)),
                   e2.address, Admits(old(TokensFor(e2, identity)), BurstFor(e2, identity)), draw, answer)
    ensures forall l :: Holds(e1, l) || Holds(e2, l) ==>
              l.tokens == TokensLeft(old(l.tokens), l.burst, l.address, l.identity, identity, answer)
    ensures forall e, id :: (e == e1 || e == e2) && id in e.limiters ==>
              e.limiters[id].tokens ==
                if id == identity && answer == To(e.address)
                then (if e.limiters[id].burst < old(e.limiters[id].tokens) then e.limiters[id].burst
                      else old(e.limiters[id].tokens)) - 1
                else old(e.limiters[id].tokens)
    ensures forall e :: (e == e1 || e == e2) && answer == To(e.address) && identity in e.limiters ==>
              old(e.limiters[identity].tokens) > 0 && e.limiters[identity].burst > 0
    ensures answer == TooManyRequests ==> forall e :: e == e1 || e == e2 ==>
              && identity in e.limiters
              && (old(e.limiters[identity].tokens) == 0 || e.limiters[identity].burst <= 0)
  {
    draw := 0;
    var addresses := [e1.address, e2.address];
    var rls := [LimiterFor(e1, identity), LimiterFor(e2, identity)];
    var ws := [w.first, w.second];
    if ws[0] > ws[1] {
      addresses := [addresses[1], addresses[0]];
      rls := [rls[1], rls[0]];
      ws := [ws[1], ws[0]];
    }
    DrawBoundPositiveExactlyWhen(ws[0] + ws[1]);
    if DrawBound(ws[0] + ws[1]) <= 0 {
      return Panic, draw;
    }
    var d :| IsDraw(d, DrawBound(ws[0] + ws[1]));
    draw := d;
    var idx := if d as real <= ws[0] then 1 else 0;
    answer := TryAndTake(addresses, rls, idx, identity, e1, e2);
  }

  /** Weighs two candidates by latency or load. */
  method Weigh(e1: EndpointInfo, e2: EndpointInfo, book: LatencyBook) returns (w: Weights)
    requires book.Valid()
    ensures w == WeightsFor(book, e1, e2)
  {
    var latency1 := book.Weight(e1.address);
    var latency2 := book.Weight(e2.address);
    w := WeightsOf(latency1, latency2, e1.lastLoad, e2.lastLoad);
  }
}

/**
  Gateway-to-gateway membership and the rate budget it divides: `listenPeers`
  and `ExtractRates` (gateway/upstreamer/push/upstreamer.go). Rates are reals
  and time is an integer clock; each handler and each call is one step.
*/
module Peers {
  import opened Wrappers

  /** `tokenLimitingRPS`, `tokenLimitingBurst` and `peerTimeout`; the options refuse rates that are not positive. */
  datatype Config = Config(rps: real, burst: int, timeout: nat)

  predicate ValidConfig(cfg: Config) { cfg.rps > 0.0 && cfg.burst > 0 }

  datatype RateSet = RateSet(limit: real, burst: int)

  /**
    The peer map and count of one gateway, when they last changed, and the cached rates (`None` for
    unset or emptied).
  */
  datatype Gateway = Gateway(rid: string, peers: map<string, int>, count: int, lastChange: int, cache: Option<RateSet>)

  function NewGateway(rid: string): Gateway {
    Gateway(rid, map[], 0, 0, None)
  }

  // ---------------------------------------------------------------- the handlers

  function Share(cfg: Config, count: int): RateSet
    requires count >= 0
  {
    RateSet(cfg.rps / (count + 1) as real, cfg.burst / (count + 1))
  }

  datatype Event = HelloFrom(id: string) | GoodbyeFrom(id: string) | Clean | Rates

  datatype Timed = Timed(at: int, event: Event)

  function AfterHello(g: Gateway, id: string, now: int): Gateway {
    if id == g.rid then g
    else if id in g.peers then g.(peers := g.peers[id := now])
    else g.(peers := g.peers[id := now], count := g.count + 1, lastChange := now, cache := None)
  }

  function AfterGoodbye(g: Gateway, id: string, now: int): Gateway {
    if id == g.rid || id !in g.peers then g
    else g.(peers := g.peers - {id}, count := g.count - 1, lastChange := now, cache := None)
  }

  function ExpiredPeers(cfg: Config, g: Gateway, now: int): set<string> {
    set id | id in g.peers && now > g.peers[id] + cfg.timeout
  }

  function AfterClean(cfg: Config, g: Gateway, now: int): Gateway {
    var gone := ExpiredPeers(cfg, g, now);
    if gone == {} then g
    else g.(peers := g.peers - gone, count := g.count - |gone|, lastChange := now, cache := None)
  }

  function AfterRates(cfg: Config, g: Gateway): Gateway {
    if g.cache.Some? || g.count < 0 then g else g.(cache := Some(Share(cfg, g.count)))
  }

  function After(cfg: Config, g: Gateway, e: Timed): Gateway {
    match e.event
    case HelloFrom(id) => AfterHello(g, id, e.at)
    case GoodbyeFrom(id) => AfterGoodbye(g, id, e.at)
    case Clean => AfterClean(cfg, g, e.at)
    case Rates => AfterRates(cfg, g)
  }

  function Run(cfg: Config, rid: string, trace: seq<Timed>): Gateway {
    if trace == [] then NewGateway(rid)
    else After(cfg, Run(cfg, rid, trace[..|trace| - 1]), trace[|trace| - 1])
  }

  // ---------------------------------------------------------------- what every step keeps

  ghost predicate Inv(cfg: Config, g: Gateway) {
    && g.count == |g.peers.Keys|
    && g.rid !in g.peers
    && (g.cache.Some? ==> g.cache.value == Share(cfg, g.count))
  }

  lemma HelloKeepsInv(cfg: Config, g: Gateway, id: string, now: int)
    requires Inv(cfg, g)
    ensures Inv(cfg, AfterHello(g, id, now))
  {
    assert g.peers[id := now].Keys == g.peers.Keys + {id};
  }

  lemma GoodbyeKeepsInv(cfg: Config, g: Gateway, id: string, now: int)
    requires Inv(cfg, g)
    ensures Inv(cfg, AfterGoodbye(g, id, now))
  {
    assert (g.peers - {id}).Keys == g.peers.Keys - {id};
  }

  lemma CleanKeepsInv(cfg: Config, g: Gateway, now: int)
    requires Inv(cfg, g)
    ensures Inv(cfg, AfterClean(cfg, g, now))
  {
    var gone := ExpiredPeers(cfg, g, now);
    assert gone <= g.peers.Keys;
    assert (g.peers - gone).Keys == g.peers.Keys - gone;
    assert |g.peers.Keys - gone| == |g.peers.Keys| - |gone|;
  }

  lemma StepKeepsInv(cfg: Config, g: Gateway, e: Timed)
    requires Inv(cfg, g)
    ensures Inv(cfg, After(cfg, g, e)) && After(cfg, g, e).rid == g.rid
  {
    match e.event
    case HelloFrom(id) => HelloKeepsInv(cfg, g, id, e.at);
    case GoodbyeFrom(id) => GoodbyeKeepsInv(cfg, g, id, e.at);
    case Clean => CleanKeepsInv(cfg, g, e.at);
    case Rates =>
  }

  lemma LastChangeAfter(cfg: Config, g: Gateway, e: Timed)
    ensures After(cfg, g, e).lastChange == g.lastChange || After(cfg, g, e).lastChange == e.at
  {
  }

  /** On every run the count is the size of the map, the own id is not in it, and cached rates are current. */
  lemma {:induction false} RunKeepsInv(cfg: Config, rid: string, trace: seq<Timed>)
    ensures Inv(cfg, Run(cfg, rid, trace)) && Run(cfg, rid, trace).rid == rid
  {
    if trace != [] {
      var n := |trace| - 1;
      RunKeepsInv(cfg, rid, trace[..n]);
      StepKeepsInv(cfg, Run(cfg, rid, trace[..n]), trace[n]);
    }
  }

  // ---------------------------------------------------------------- who is a peer

  predicate About(e: Timed, id: string) { e.event == HelloFrom(id) || e.event == GoodbyeFrom(id) }

  predicate LastWordAt(trace: seq<Timed>, id: string, t: int, i: int) {
    && 0 <= i < |trace| && trace[i] == Timed(t, HelloFrom(id))
    && forall j :: i < j < |trace| ==> !About(trace[j], id)
  }

  /** The last word of `id` is a hello, heard at `t`. */
  ghost predicate Heard(trace: seq<Timed>, id: string, t: int) {
    exists i :: LastWordAt(trace, id, t, i)
  }

  predicate ClockRuns(trace: seq<Timed>) {
    forall i, j :: 0 <= i < j < |trace| ==> trace[i].at <= trace[j].at
  }

  lemma HeardAfter(trace: seq<Timed>, id: string, t: int)
    requires trace != []
    ensures var n := |trace| - 1;
            Heard(trace, id, t) <==>
              trace[n] == Timed(t, HelloFrom(id)) || (Heard(trace[..n], id, t) && !About(trace[n], id))
  {
    var n := |trace| - 1;
    assert LastWordAt(trace, id, t, n) <==> trace[n] == Timed(t, HelloFrom(id));
    forall i | 0 <= i < n
      ensures LastWordAt(trace, id, t, i) <==> LastWordAt(trace[..n], id, t, i) && !About(trace[n], id)
    {
      assert forall j :: 0 <= j < n ==> trace[..n][j] == trace[j];
    }
  }

  /** Every peer is there because its last word was a hello, at the recorded time. */
  lemma {:induction false} PeersWereHeard(cfg: Config, rid: string, trace: seq<Timed>, id: string)
    requires id in Run(cfg, rid, trace).peers
    ensures id != rid && Heard(trace, id, Run(cfg, rid, trace).peers[id])
  {
    RunKeepsInv(cfg, rid, trace);
    if trace != [] {
      var n := |trace| - 1;
      var before := Run(cfg, rid, trace[..n]);
      RunKeepsInv(cfg, rid, trace[..n]);
      HeardAfter(trace, id, Run(cfg, rid, trace).peers[id]);
      if trace[n].event != HelloFrom(id) {
        assert id in before.peers;
        PeersWereHeard(cfg, rid, trace[..n], id);
      }
    }
  }

  /** A peer whose last word was a hello at `t` stays at least until `t` plus the timeout. */
  lemma {:induction false} HeardPeersStay(cfg: Config, rid: string, trace: seq<Timed>, id: string, t: int)
    requires id != rid && Heard(trace, id, t)
    requires forall e :: e in trace ==> e.at <= t + cfg.timeout
    ensures id in Run(cfg, rid, trace).peers && Run(cfg, rid, trace).peers[id] == t
  {
    if trace == [] {
      assert false;
    } else {
      var n := |trace| - 1;
      RunKeepsInv(cfg, rid, trace[..n]);
      HeardAfter(trace, id, t);
      if trace[n] != Timed(t, HelloFrom(id)) {
        assert trace[n] in trace;
        HeardPeersStay(cfg, rid, trace[..n], id, t);
      }
    }
  }

  /** Right after a clean tick the peers are exactly the gateways heard within the timeout. */
  lemma CleanLeavesTheRecentlyHeard(cfg: Config, rid: string, trace: seq<Timed>, id: string)
    requires trace != [] && trace[|trace| - 1].event.Clean? && ClockRuns(trace)
    ensures id in Run(cfg, rid, trace).peers <==>
            id != rid && exists t :: Heard(trace, id, t) && trace[|trace| - 1].at <= t + cfg.timeout
  {
    var n := |trace| - 1;
    if id in Run(cfg, rid, trace).peers {
      PeersWereHeard(cfg, rid, trace, id);
      var before := Run(cfg, rid, trace[..n]);
      assert Run(cfg, rid, trace) == AfterClean(cfg, before, trace[n].at);
      assert id !in ExpiredPeers(cfg, before, trace[n].at);
      assert Run(cfg, rid, trace).peers[id] == before.peers[id];
      assert trace[n].at <= Run(cfg, rid, trace).peers[id] + cfg.timeout;
    }
    if t :| id != rid && Heard(trace, id, t) && trace[n].at <= t + cfg.timeout {
      HeardPeersStay(cfg, rid, trace, id, t);
    }
  }

  // ---------------------------------------------------------------- the budget

  /** What `ExtractRates` answers. */
  function RatesOf(cfg: Config, g: Gateway): RateSet
    requires g.cache.Some? || g.count >= 0
  {
    AfterRates(cfg, g).cache.value
  }

  ghost predicate Reachable(cfg: Config, g: Gateway) {
    exists trace :: g == Run(cfg, g.rid, trace)
  }

  predicate DistinctIds(live: seq<Gateway>) {
    forall i, j :: 0 <= i < j < |live| ==> live[i].rid != live[j].rid
  }

  /** Each live gateway knows every other one; it may also hold stale peers. */
  predicate Covering(live: seq<Gateway>) {
    forall i, j :: 0 <= i < |live| && 0 <= j < |live| && i != j ==> live[j].rid in live[i].peers
  }

  ghost function Answers(cfg: Config, live: seq<Gateway>): seq<RateSet>
    requires forall g :: g in live ==> Reachable(cfg, g)
  {
    seq(|live|, i requires 0 <= i < |live| => AnswerOf(cfg, live[i]))
  }

  ghost function AnswerOf(cfg: Config, g: Gateway): RateSet
    requires Reachable(cfg, g)
  {
    ReachableInv(cfg, g);
    RatesOf(cfg, g)
  }

  ghost function TotalBurst(rs: seq<RateSet>): int {
    if rs == [] then 0 else TotalBurst(rs[1..]) + rs[0].burst
  }

  ghost function TotalLimit(rs: seq<RateSet>): real {
    if rs == [] then 0.0 else TotalLimit(rs[1..]) + rs[0].limit
  }

  lemma ReachableInv(cfg: Config, g: Gateway)
    requires Reachable(cfg, g)
    ensures Inv(cfg, g)
  {
    var trace :| g == Run(cfg, g.rid, trace);
    RunKeepsInv(cfg, g.rid, trace);
  }

  ghost function Ids(live: seq<Gateway>): set<string> {
    set i | 0 <= i < |live| :: live[i].rid
  }

  lemma {:induction false} IdsCount(live: seq<Gateway>)
    requires DistinctIds(live)
    ensures |Ids(live)| == |live|
  {
    if live != [] {
      var n := |live| - 1;
      IdsCount(live[..n]);
      assert forall i :: 0 <= i < n ==> live[..n][i] == live[i];
      assert Ids(live) == Ids(live[..n]) + {live[n].rid};
      assert live[n].rid !in Ids(live[..n]);
    }
  }

  /** Covering gateways each count at least all the others. */
  lemma EnoughPeers(cfg: Config, live: seq<Gateway>, i: nat)
    requires DistinctIds(live) && Covering(live) && i < |live| && Inv(cfg, live[i])
    ensures live[i].count + 1 >= |live|
  {
    IdsCount(live);
    assert Ids(live) - {live[i].rid} <= live[i].peers.Keys;
    SubsetSize(Ids(live) - {live[i].rid}, live[i].peers.Keys);
  }

  lemma SmallerShare(cfg: Config, count: int, n: nat)
    requires cfg.rps >= 0.0 && cfg.burst >= 0 && 0 < n <= count + 1
    ensures Share(cfg, count).burst <= cfg.burst / n && Share(cfg, count).limit <= cfg.rps / n as real
  {
    DivMonotone(cfg.burst, n, count + 1);
    RealDivMonotone(cfg.rps, n as real, (count + 1) as real);
  }

  /** As many whole parts of the burst as there are gateways fit in, and one more each would not. */
  lemma PartsOf(burst: nat, n: nat)
    requires n > 0
    ensures n * (burst / n) <= burst < n * (burst / n + 1)
  {
    assert burst == n * (burst / n) + burst % n;
    assert n * (burst / n + 1) == n * (burst / n) + n;
  }

  lemma {:induction false} MulMonotone(a: nat, b: nat, n: nat, m: nat)
    requires a <= b && n <= m
    ensures a * n <= b * m
  {
    if a > 0 {
      MulMonotone(a - 1, b - 1, n, m);
      assert a * n == (a - 1) * n + n && b * m == (b - 1) * m + m;
    }
  }

  lemma DivMonotone(b: nat, n: nat, m: nat)
    requires 0 < n <= m
    ensures b / m <= b / n
  {
    var q, p := b / m, b / n;
    assert q * m <= b && b < (p + 1) * n;
    if p + 1 <= q { MulMonotone(p + 1, q, n, m); }
  }

  lemma RealDivMonotone(r: real, n: real, m: real)
    requires r >= 0.0 && 0.0 < n <= m
    ensures r / m <= r / n
  {
    var q, p := r / m, r / n;
    assert q * m == r && p * n == r && p >= 0.0;
    assert p * m >= p * n;
    assert (p - q) * m >= 0.0;
  }

  lemma {:induction false} TotalsBounded(rs: seq<RateSet>, burst: int, limit: real)
    requires forall r :: r in rs ==> r.burst <= burst && r.limit <= limit
    ensures TotalBurst(rs) <= |rs| * burst
    ensures TotalLimit(rs) <= |rs| as real * limit
  {
    if rs != [] {
      assert forall r :: r in rs[1..] ==> r in rs;
      TotalsBounded(rs[1..], burst, limit);
      OneMoreTime(|rs| - 1, burst, limit);
    }
  }

  lemma OneMoreTime(n: nat, burst: int, limit: real)
    ensures (n + 1) * burst == n * burst + burst
    ensures (n + 1) as real * limit == n as real * limit + limit
  {
    assert (n + 1) as real == n as real + 1.0;
  }

  ghost function Shares(cfg: Config, counts: seq<nat>): seq<RateSet> {
    seq(|counts|, i requires 0 <= i < |counts| => Share(cfg, counts[i]))
  }

  /** Shares of gateways that each count all the others do not add up to more than the whole. */
  lemma SharesFit(cfg: Config, counts: seq<nat>)
    requires cfg.rps >= 0.0 && cfg.burst >= 0
    requires forall i :: 0 <= i < |counts| ==> counts[i] + 1 >= |counts|
    ensures TotalBurst(Shares(cfg, counts)) <= cfg.burst
    ensures TotalLimit(Shares(cfg, counts)) <= cfg.rps
  {
    var rs := Shares(cfg, counts);
    if rs != [] {
      var part := PartOfWhole(cfg, |rs|);
      forall r | r in rs ensures r.burst <= part.burst && r.limit <= part.limit {
        var i :| 0 <= i < |counts| && rs[i] == r;
      }
      TotalsWithin(rs, part, cfg.burst, cfg.rps);
    }
  }

  lemma TotalsWithin(rs: seq<RateSet>, part: RateSet, burst: int, limit: real)
    requires forall r :: r in rs ==> r.burst <= part.burst && r.limit <= part.limit
    requires |rs| * part.burst <= burst && |rs| as real * part.limit <= limit
    ensures TotalBurst(rs) <= burst && TotalLimit(rs) <= limit
  {
    TotalsBounded(rs, part.burst, part.limit);
  }

  /** A part that `n` gateways can have without exceeding the whole, and that no larger count goes beyond. */
  lemma PartOfWhole(cfg: Config, n: nat) returns (part: RateSet)
    requires cfg.rps >= 0.0 && cfg.burst >= 0 && n > 0
    ensures n * part.burst <= cfg.burst && n as real * part.limit <= cfg.rps
    ensures forall count :: count + 1 >= n ==>
              Share(cfg, count).burst <= part.burst && Share(cfg, count).limit <= part.limit
  {
    part := Share(cfg, n - 1);
    assert n as real * (cfg.rps / n as real) == cfg.rps;
    forall count | count + 1 >= n
      ensures Share(cfg, count).burst <= part.burst && Share(cfg, count).limit <= part.limit
    {
      SmallerShare(cfg, count, n);
    }
  }

  ghost function CountsOf(live: seq<Gateway>): seq<nat> {
    seq(|live|, i requires 0 <= i < |live| => if live[i].count < 0 then 0 else live[i].count)
  }

  /** Together, covering gateways never hand out more than the configured burst and rate. */
  lemma GlobalBudget(cfg: Config, live: seq<Gateway>)
    requires ValidConfig(cfg)
    requires forall g :: g in live ==> Reachable(cfg, g)
    requires DistinctIds(live) && Covering(live)
    ensures TotalBurst(Answers(cfg, live)) <= cfg.burst
    ensures TotalLimit(Answers(cfg, live)) <= cfg.rps
  {
    forall g | g in live ensures Inv(cfg, g) { ReachableInv(cfg, g); }
    var counts := CountsOf(live);
    forall i | 0 <= i < |live| ensures Answers(cfg, live)[i] == Share(cfg, counts[i]) && counts[i] + 1 >= |live| {
      assert live[i] in live;
      EnoughPeers(cfg, live, i);
    }
    assert Answers(cfg, live) == Shares(cfg, counts);
    SharesFit(cfg, counts);
  }

  /** One answer: `n` of them fit into the configured burst, `n` greater ones would not, and `n` limits are the rate. */
  lemma AnswerIsAPart(cfg: Config, count: nat)
    requires ValidConfig(cfg)
    ensures var n, r := count + 1, Share(cfg, count);
            n * r.burst <= cfg.burst < n * (r.burst + 1) && n as real * r.limit == cfg.rps
  {
    PartsOf(cfg.burst, count + 1);
  }

  /** The peers of each gateway are exactly the others. */
  ghost predicate ExactlyCovering(live: seq<Gateway>) {
    forall i :: 0 <= i < |live| ==> live[i].peers.Keys == Ids(live) - {live[i].rid}
  }

  lemma {:induction false} TotalsOfEqual(rs: seq<RateSet>, r: RateSet)
    requires forall x :: x in rs ==> x == r
    ensures TotalBurst(rs) == |rs| * r.burst && TotalLimit(rs) == |rs| as real * r.limit
  {
    if rs != [] {
      assert rs[0] in rs && forall x :: x in rs[1..] ==> x in rs;
      TotalsOfEqual(rs[1..], r);
      OneMoreTime(|rs| - 1, r.burst, r.limit);
    }
  }

  /**
    Nor do they waste it: gateways whose peers are exactly the others hand out
    the whole rate, and the burst but for less than one token each.
  */
  lemma WholeBudgetIsUsed(cfg: Config, live: seq<Gateway>)
    requires ValidConfig(cfg) && live != [] && DistinctIds(live) && ExactlyCovering(live)
    requires forall g :: g in live ==> Reachable(cfg, g)
    ensures TotalLimit(Answers(cfg, live)) == cfg.rps
    ensures cfg.burst - |live| < TotalBurst(Answers(cfg, live)) <= cfg.burst
  {
    forall i | 0 <= i < |live| ensures Answers(cfg, live)[i] == Share(cfg, |live| - 1) {
      AnswerAmong(cfg, live, i);
    }
    EqualPartsUseTheWhole(cfg, Answers(cfg, live));
  }

  lemma AnswerAmong(cfg: Config, live: seq<Gateway>, i: nat)
    requires i < |live| && DistinctIds(live) && ExactlyCovering(live) && Reachable(cfg, live[i])
    ensures AnswerOf(cfg, live[i]) == Share(cfg, |live| - 1)
  {
    ReachableInv(cfg, live[i]);
    CountAmong(cfg, live, i);
  }

  lemma CountAmong(cfg: Config, live: seq<Gateway>, i: nat)
    requires i < |live| && DistinctIds(live) && ExactlyCovering(live) && Inv(cfg, live[i])
    ensures live[i].count == |live| - 1
  {
    IdsCount(live);
    var ids, rid := Ids(live), live[i].rid;
    assert rid in ids && |ids - {rid}| == |ids| - 1;
  }

  lemma EqualPartsUseTheWhole(cfg: Config, rs: seq<RateSet>)
    requires ValidConfig(cfg) && rs != [] && forall r :: r in rs ==> r == Share(cfg, |rs| - 1)
    ensures TotalLimit(rs) == cfg.rps && cfg.burst - |rs| < TotalBurst(rs) <= cfg.burst
  {
    var n, part := |rs|, Share(cfg, |rs| - 1);
    AnswerIsAPart(cfg, n - 1);
    TotalsOfEqual(rs, part);
    assert n * (part.burst + 1) == n * part.burst + n;
  }

  /** The run of one live gateway. */
  datatype Life = Life(rid: string, trace: seq<Timed>)

  function StateOf(cfg: Config, l: Life): Gateway { Run(cfg, l.rid, l.trace) }

  ghost function States(cfg: Config, lives: seq<Life>): seq<Gateway> {
    seq(|lives|, i requires 0 <= i < |lives| => StateOf(cfg, lives[i]))
  }

  /** Each gateway has heard each other one no longer than the timeout ago, with no goodbye since. */
  ghost predicate AllHeardInTime(cfg: Config, lives: seq<Life>) {
    forall i, j :: 0 <= i < |lives| && 0 <= j < |lives| && i != j ==> HeardInTime(cfg, lives[i], lives[j].rid)
  }

  ghost predicate HeardInTime(cfg: Config, l: Life, id: string) {
    exists t :: Heard(l.trace, id, t) && forall e :: e in l.trace ==> e.at <= t + cfg.timeout
  }

  /** On any runs in which the hellos arrive in time, the budget holds. */
  lemma BudgetWhileHellosArrive(cfg: Config, lives: seq<Life>)
    requires ValidConfig(cfg) && AllHeardInTime(cfg, lives)
    requires forall i, j :: 0 <= i < j < |lives| ==> lives[i].rid != lives[j].rid
    ensures forall g :: g in States(cfg, lives) ==> Reachable(cfg, g)
    ensures TotalBurst(Answers(cfg, States(cfg, lives))) <= cfg.burst
    ensures TotalLimit(Answers(cfg, States(cfg, lives))) <= cfg.rps
  {
    var live := States(cfg, lives);
    forall i | 0 <= i < |lives| ensures live[i].rid == lives[i].rid && Reachable(cfg, live[i]) {
      RunKeepsInv(cfg, lives[i].rid, lives[i].trace);
      assert live[i] == Run(cfg, live[i].rid, lives[i].trace);
    }
    forall i, j | 0 <= i < |lives| && 0 <= j < |lives| && i != j ensures live[j].rid in live[i].peers {
      assert HeardInTime(cfg, lives[i], lives[j].rid);
      var t :| Heard(lives[i].trace, lives[j].rid, t) && forall e :: e in lives[i].trace ==> e.at <= t + cfg.timeout;
      HeardPeersStay(cfg, lives[i].rid, lives[i].trace, lives[j].rid, t);
    }
    GlobalBudget(cfg, live);
  }

  /** Before they have heard each other, two gateways hand out twice the budget. */
  lemma StrangersOverspend(cfg: Config, a: string, b: string)
    requires ValidConfig(cfg) && a != b
    ensures var live := [NewGateway(a), NewGateway(b)];
            (forall g :: g in live ==> Reachable(cfg, g)) && TotalBurst(Answers(cfg, live)) == 2 * cfg.burst
  {
    var live := [NewGateway(a), NewGateway(b)];
    assert live[0] == Run(cfg, a, []) && live[1] == Run(cfg, b, []);
    var answers := Answers(cfg, live);
    assert answers == [Share(cfg, 0), Share(cfg, 0)];
    var one := [Share(cfg, 0)];
    assert answers[1..] == one && one[1..] == [];
    assert TotalBurst(one) == TotalBurst([]) + cfg.burst;
    assert TotalBurst(answers) == TotalBurst(one) + cfg.burst;
  }

  // ---------------------------------------------------------------- the tracker object

  /** Walks the peer map in any order, deletes the expired and counts them. */
  method DeleteExpired(cfg: Config, peers: map<string, int>, now: int, ghost expired: set<string>)
    returns (left: map<string, int>, deleted: int)
    requires expired == set id | id in peers && now > peers[id] + cfg.timeout
    ensures left == peers - expired && deleted == |expired|
  {
    var todo := peers.Keys;
    ghost var gone: set<string> := {};
    left := peers;
    deleted := 0;
    while todo != {}
      invariant todo <= peers.Keys && gone == expired - todo
      invariant left == peers - gone && deleted == |gone|
    {
      var id :| id in todo;
      todo := todo - {id};
      if now > peers[id] + cfg.timeout {
        left := left - {id};
        gone := gone + {id};
        deleted := deleted + 1;
      }
    }
  }

  /** The peer state of an upstreamer: `peers`, `peersCount`, `lastPeerChangeDate` and `lastRateSet`. */
  class PeerTable {
    const cfg: Config
    const rid: string
    var peers: map<string, int>
    var peersCount: int
    var lastPeerChange: int
    var lastRateSet: Option<RateSet>

    ghost function View(): Gateway
      reads this
    {
      Gateway(rid, peers, peersCount, lastPeerChange, lastRateSet)
    }

    ghost predicate Valid()
      reads this
    {
      ValidConfig(cfg) && Inv(cfg, View())
    }

    constructor (cfg: Config, rid: string)
      requires ValidConfig(cfg)
      ensures Valid() && this.cfg == cfg && View() == NewGateway(rid)
    {
      this.cfg := cfg;
      this.rid := rid;
      peers, peersCount, lastPeerChange, lastRateSet := map[], 0, 0, None;
    }

    method HandleHello(id: string, now: int)
      requires Valid()
      modifies this
      ensures Valid() && View() == AfterHello(old(View()), id, now)
    {
      HelloKeepsInv(cfg, View(), id, now);
      if id == rid {
        return;
      }
      if id !in peers {
        peersCount := peersCount + 1;
        lastPeerChange := now;
        lastRateSet := None;
      }
      peers := peers[id := now];
    }

    method HandleGoodbye(id: string, now: int)
      requires Valid()
      modifies this
      ensures Valid() && View() == AfterGoodbye(old(View()), id, now)
    {
      GoodbyeKeepsInv(cfg, View(), id, now);
      if id != rid && id in peers {
        peers := peers - {id};
        peersCount := peersCount - 1;
        lastPeerChange := now;
        lastRateSet := None;
      }
    }

    method CleanPeers(now: int)
      requires Valid()
      modifies this
      ensures Valid() && View() == AfterClean(cfg, old(View()), now)
    {
      CleanKeepsInv(cfg, View(), now);
      var left, deleted := DeleteExpired(cfg, peers, now, ExpiredPeers(cfg, View(), now));
      peers := left;
      if deleted > 0 {
        peersCount := peersCount - deleted;
        lastPeerChange := now;
        lastRateSet := None;
      }
    }

    /** The cached rates when there are some, which are always those of the current count. */
    method ExtractRates() returns (limit: real, burst: int)
      requires Valid()
      modifies this`lastRateSet
      ensures Valid() && View() == AfterRates(cfg, old(View()))
      ensures RateSet(limit, burst) == Share(cfg, |peers.Keys|)
      ensures var n := |peers.Keys| + 1;
              n * burst <= cfg.burst < n * (burst + 1) && n as real * limit == cfg.rps
    {
      AnswerIsAPart(cfg, |peers.Keys|);
      if lastRateSet.None? {
        var currentPeers := peersCount + 1;
        lastRateSet := Some(RateSet(cfg.rps / currentPeers as real, cfg.burst / currentPeers));
      }
      limit, burst := lastRateSet.value.limit, lastRateSet.value.burst;
    }
  }
}

/**
  Which rates the limiters of one endpoint run at when it announced several
  (gateway/upstreamer/push/upstreamer.go, gateway/upstreamer/push/services.go):
  the date of adjustment is kept per endpoint, so after each change of the peers
  only the identity asked for first is brought in line.
*/
module LimiterShares {
  import opened Directory
  import opened Balancer

  datatype Touch = PeersTo(count: nat) | RequestFor(identity: string)

  /** The peers, whether an adjustment is due, and for each limited identity the peers its rates are meant for. */
  datatype Limits = Limits(count: nat, due: bool, at: map<string, nat>)

  /** A new endpoint is at its announced rates, those for no peers. */
  function Start(ids: set<string>, count: nat, due: bool): Limits {
    Limits(count, due, map id | id in ids :: 0)
  }

  function After(l: Limits, t: Touch): Limits {
    match t
    case PeersTo(n) => l.(count := n, due := true)
    case RequestFor(id) => if id in l.at && l.due then l.(at := l.at[id := l.count], due := false) else l
  }

  function Run(ids: set<string>, count: nat, due: bool, trace: seq<Touch>, n: nat): Limits
    requires n <= |trace|
  {
    if n == 0 then Start(ids, count, due) else After(Run(ids, count, due, trace, n - 1), trace[n - 1])
  }

  predicate IsLimited(ids: set<string>, t: Touch) { t.RequestFor? && t.identity in ids }

  /** The peers changed at `k`, or before the endpoint came for `k == -1`, and no limited request came in between. */
  predicate QuietSince(ids: set<string>, due: bool, trace: seq<Touch>, n: nat, k: int) {
    && -1 <= k < n <= |trace| && (if k == -1 then due else trace[k].PeersTo?)
    && forall j :: k < j < n ==> !IsLimited(ids, trace[j])
  }

  /** The request at `i` is the first limited one since the peers last changed. */
  ghost predicate IsFirst(ids: set<string>, due: bool, trace: seq<Touch>, i: int) {
    0 <= i < |trace| && IsLimited(ids, trace[i]) && exists k :: QuietSince(ids, due, trace, i, k)
  }

  ghost predicate IsFirstFor(ids: set<string>, due: bool, trace: seq<Touch>, i: int, id: string) {
    IsFirst(ids, due, trace, i) && trace[i].identity == id
  }

  lemma {:induction false} Keys(ids: set<string>, count: nat, due: bool, trace: seq<Touch>, n: nat)
    requires n <= |trace|
    ensures Run(ids, count, due, trace, n).at.Keys == ids
  {
    if n > 0 { Keys(ids, count, due, trace, n - 1); }
  }

  /** An adjustment is due exactly when the last change of the peers has not been followed by a limited request. */
  lemma {:induction false} DueExactlyWhen(ids: set<string>, count: nat, due: bool, trace: seq<Touch>, n: nat)
    requires n <= |trace|
    ensures Run(ids, count, due, trace, n).due <==> exists k :: QuietSince(ids, due, trace, n, k)
  {
    if n == 0 {
      assert due ==> QuietSince(ids, due, trace, 0, -1);
    } else {
      var m := n - 1;
      DueExactlyWhen(ids, count, due, trace, m);
      Keys(ids, count, due, trace, m);
      if trace[m].PeersTo? { assert QuietSince(ids, due, trace, n, m); }
      forall k | k < m ensures QuietSince(ids, due, trace, n, k) <==>
                               QuietSince(ids, due, trace, m, k) && !IsLimited(ids, trace[m]) {
      }
      if Run(ids, count, due, trace, n).due && !trace[m].PeersTo? {
        var k :| QuietSince(ids, due, trace, m, k);
        assert QuietSince(ids, due, trace, n, k);
      }
    }
  }

  /** `i` is the last request before `n` that was the first since a change of the peers, and for `id`. */
  ghost predicate LastLead(ids: set<string>, due: bool, trace: seq<Touch>, n: nat, id: string, i: int) {
    && 0 <= i < n <= |trace| && IsFirstFor(ids, due, trace, i, id)
    && forall j :: i < j < n ==> !IsFirstFor(ids, due, trace, j, id)
  }

  ghost predicate NeverLed(ids: set<string>, due: bool, trace: seq<Touch>, n: nat, id: string) {
    n <= |trace| && forall j :: 0 <= j < n ==> !IsFirstFor(ids, due, trace, j, id)
  }

  lemma StepShare(ids: set<string>, count: nat, due: bool, trace: seq<Touch>, m: nat, id: string)
    requires m < |trace| && id in ids
    ensures var before, after := Run(ids, count, due, trace, m), Run(ids, count, due, trace, m + 1);
            && id in before.at && id in after.at
            && after.at[id] == if IsFirstFor(ids, due, trace, m, id) then before.count else before.at[id]
  {
    Keys(ids, count, due, trace, m);
    DueExactlyWhen(ids, count, due, trace, m);
  }

  /**
    On every sequence of peer changes and requests, an identity runs at the
    share for the peers there were when a request for it was last the first
    since a change, and at its announced rates if none ever was.
  */
  lemma {:induction false} ShareIsThatOfLastLead(ids: set<string>, count: nat, due: bool, trace: seq<Touch>, n: nat,
                                                 id: string, i: int)
    requires n <= |trace| && id in ids
    ensures id in Run(ids, count, due, trace, n).at
    ensures LastLead(ids, due, trace, n, id, i) ==>
              Run(ids, count, due, trace, n).at[id] == Run(ids, count, due, trace, i).count
    ensures NeverLed(ids, due, trace, n, id) ==> Run(ids, count, due, trace, n).at[id] == 0
  {
    if n > 0 {
      ShareIsThatOfLastLead(ids, count, due, trace, n - 1, id, i);
      StepShare(ids, count, due, trace, n - 1, id);
    }
  }

  /** So an identity that was never asked for first is current exactly when there are no peers. */
  lemma NeverLedIsCurrentExactlyWhen(ids: set<string>, count: nat, due: bool, trace: seq<Touch>, id: string)
    requires id in ids && NeverLed(ids, due, trace, |trace|, id)
    ensures id in Run(ids, count, due, trace, |trace|).at
    ensures Run(ids, count, due, trace, |trace|).at[id] == Run(ids, count, due, trace, |trace|).count <==>
            Run(ids, count, due, trace, |trace|).count == 0
  {
    ShareIsThatOfLastLead(ids, count, due, trace, |trace|, id, -1);
  }

  /** The one asked for first since the last change is current; any other is exactly when the counts agree. */
  lemma CurrentExactlyWhen(ids: set<string>, count: nat, due: bool, trace: seq<Touch>, id: string, i: int)
    requires id in ids && LastLead(ids, due, trace, |trace|, id, i)
    ensures id in Run(ids, count, due, trace, |trace|).at
    ensures Run(ids, count, due, trace, |trace|).at[id] == Run(ids, count, due, trace, |trace|).count <==>
            Run(ids, count, due, trace, i).count == Run(ids, count, due, trace, |trace|).count
    ensures (forall j :: i < j < |trace| ==> !trace[j].PeersTo?) ==>
              Run(ids, count, due, trace, |trace|).at[id] == Run(ids, count, due, trace, |trace|).count
  {
    ShareIsThatOfLastLead(ids, count, due, trace, |trace|, id, i);
    if forall j :: i < j < |trace| ==> !trace[j].PeersTo? {
      CountStays(ids, count, due, trace, i, |trace|);
    }
  }

  lemma {:induction false} CountStays(ids: set<string>, count: nat, due: bool, trace: seq<Touch>, i: nat, n: nat)
    requires i <= n <= |trace| && forall j :: i <= j < n ==> !trace[j].PeersTo?
    ensures Run(ids, count, due, trace, i).count == Run(ids, count, due, trace, n).count
  {
    if i < n { CountStays(ids, count, due, trace, i, n - 1); }
  }

  // ---------------------------------------------------------------- the limiters themselves

  /** The limiters of `e` run at the rates that `l` says. */
  ghost predicate Shows(e: EndpointInfo, l: Limits, lastChange: int)
    reads e`lastLimiterAdjust, e.limiters.Values`limit, e.limiters.Values`burst
  {
    && l.at.Keys == e.limiters.Keys && e.lastLimiterAdjust <= lastChange
    && (l.due <==> e.lastLimiterAdjust < lastChange)
    && forall id :: id in e.limiters ==> AtRatesFor(e.limiters[id], l.at[id])
  }

  /** A new endpoint shows the start. */
  lemma NewShows(e: EndpointInfo, count: nat, lastChange: int)
    requires e.lastLimiterAdjust == 0 <= lastChange && AtAnnouncedRates(e)
    ensures Shows(e, Start(e.limiters.Keys, count, lastChange > 0), lastChange)
  {
  }

  /** A later change of the peers is the peer step: it touches no limiter. */
  lemma PeersStepShows(e: EndpointInfo, l: Limits, lastChange: int, count: nat, now: int)
    requires Shows(e, l, lastChange) && now > lastChange
    ensures Shows(e, After(l, PeersTo(count)), now)
  {
  }

  /** Consulting a limiter is the request step. */
  method Consult(e: EndpointInfo, identity: string, lastChange: int, ghost l: Limits, peers: nat)
    requires OwnLimiters(e) && Shows(e, l, lastChange) && l.count == peers
    modifies e`lastLimiterAdjust, e.limiters.Values`limit, e.limiters.Values`burst
    ensures Shows(e, After(l, RequestFor(identity)), lastChange)
  {
    ghost var next := After(l, RequestFor(identity));
    SetRates(e, identity, peers, lastChange);
    forall id | id in e.limiters ensures AtRatesFor(e.limiters[id], next.at[id]) {
      assert old(AtRatesFor(e.limiters[id], l.at[id]));
    }
  }

  /**
    What a new endpoint goes through: peer changes, at the dates given, and
    requests, in any order. Its limiters run at the rates the specification
    says, whichever identity is asked for when.
  */
  method Live(e: EndpointInfo, trace: seq<Touch>, dates: seq<int>, count: nat, lastChange: int)
    returns (peers: nat, changed: int)
    requires OwnLimiters(e) && e.lastLimiterAdjust == 0 <= lastChange && AtAnnouncedRates(e)
    requires |dates| == |trace| && forall i :: 0 <= i < |dates| ==> lastChange < dates[i]
    requires forall i, j :: 0 <= i < j < |dates| ==> dates[i] < dates[j]
    modifies e`lastLimiterAdjust, e.limiters.Values`limit, e.limiters.Values`burst
    ensures Shows(e, Run(e.limiters.Keys, count, lastChange > 0, trace, |trace|), changed)
    ensures peers == Run(e.limiters.Keys, count, lastChange > 0, trace, |trace|).count
  {
    ghost var ids, due := e.limiters.Keys, lastChange > 0;
    peers, changed := count, lastChange;
    NewShows(e, count, lastChange);
    for i := 0 to |trace|
      invariant Shows(e, Run(ids, count, due, trace, i), changed) && peers == Run(ids, count, due, trace, i).count
      invariant forall j :: i <= j < |dates| ==> changed < dates[j]
    {
      match trace[i] {
        case PeersTo(n) =>
          PeersStepShows(e, Run(ids, count, due, trace, i), changed, n, dates[i]);
          peers, changed := n, dates[i];
        case RequestFor(identity) =>
          Consult(e, identity, changed, Run(ids, count, due, trace, i), peers);
      }
    }
  }
}

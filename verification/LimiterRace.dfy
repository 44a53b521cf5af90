/**
  The adjustment of a limiter in `Upstream` against the peer handlers
  (gateway/upstreamer/push/upstreamer.go) at the grain of their atomic
  operations: a request loads the peer count, then the date of the last change,
  sets the limiter when the endpoint was adjusted before that date, and then
  marks the endpoint; a handler changes the count, then the date. Any number of
  requests for one limited endpoint interleave with the one handler.
*/
module LimiterRace {
  type RequestId = nat

  datatype Step =
    | Change(count: nat)
    | Stamp(date: int)
    | LoadCount(r: RequestId)
    | LoadDate(r: RequestId)
    | Adjust(r: RequestId)
    | Mark(r: RequestId)

  /** A request with the count it loaded, with count and date, or with the limiter set and the mark to come. */
  datatype Request = Counted(count: nat) | Dated(count: nat, date: int) | Adjusted(date: int)

  /** `share` is the peer count the limiter's rates are for; `stampDue`: the handler is yet to store its date. */
  datatype State = State(
    count: nat, date: int, stampDue: bool, share: nat, adjusted: int, requests: map<RequestId, Request>)

  /** A new endpoint, at its announced rates and never adjusted. */
  function Start(count: nat, date: int): State { State(count, date, false, 0, 0, map[]) }

  predicate HasCount(s: State, r: RequestId, count: int) {
    r in s.requests && (s.requests[r].Counted? || s.requests[r].Dated?) && s.requests[r].count == count
  }

  predicate HasDate(s: State, r: RequestId, date: int) {
    r in s.requests && (s.requests[r].Dated? || s.requests[r].Adjusted?) && s.requests[r].date == date
  }

  predicate Enabled(s: State, x: Step) {
    match x
    case Change(n) => !s.stampDue && n != s.count
    case Stamp(d) => s.stampDue && d > s.date
    case LoadCount(r) => r !in s.requests
    case LoadDate(r) => r in s.requests && s.requests[r].Counted?
    case Adjust(r) => r in s.requests && s.requests[r].Dated?
    case Mark(r) => r in s.requests && s.requests[r].Adjusted?
  }

  /** The endpoint was last adjusted before the date the request loaded, so the request sets the limiter. */
  predicate Sets(s: State, x: Step) {
    Enabled(s, x) && x.Adjust? && s.adjusted < s.requests[x.r].date
  }

  function Next(s: State, x: Step): State
    requires Enabled(s, x)
  {
    match x
    case Change(n) => s.(count := n, stampDue := true)
    case Stamp(d) => s.(date := d, stampDue := false)
    case LoadCount(r) => s.(requests := s.requests[r := Counted(s.count)])
    case LoadDate(r) => s.(requests := s.requests[r := Dated(s.requests[r].count, s.date)])
    case Adjust(r) =>
      if Sets(s, x) then s.(share := s.requests[r].count, requests := s.requests[r := Adjusted(s.requests[r].date)])
      else s.(requests := s.requests - {r})
    case Mark(r) => s.(adjusted := s.requests[r].date, requests := s.requests - {r})
  }

  ghost predicate IsRun(count: nat, date: int, trace: seq<Step>, states: seq<State>) {
    && |states| == |trace| + 1 && states[0] == Start(count, date)
    && forall k :: 0 <= k < |trace| ==> Enabled(states[k], trace[k]) && states[k + 1] == Next(states[k], trace[k])
  }

  // ---------------------------------------------------------------- where the share and the mark come from

  /** The last time step `x` was taken before `n`. */
  predicate LastOf(trace: seq<Step>, n: nat, x: Step, i: int) {
    0 <= i < n <= |trace| && trace[i] == x && forall k :: i < k < n ==> trace[k] != x
  }

  lemma NextCount(s: State, x: Step, r: RequestId, count: int)
    requires Enabled(s, x) && HasCount(Next(s, x), r, count)
    ensures if x == LoadCount(r) then count == s.count else HasCount(s, r, count)
  {
  }

  lemma NextDate(s: State, x: Step, r: RequestId, date: int)
    requires Enabled(s, x) && HasDate(Next(s, x), r, date)
    ensures if x == LoadDate(r) then date == s.date else HasDate(s, r, date)
  {
  }

  lemma {:induction false} CountOrigin(count: nat, date: int, trace: seq<Step>, states: seq<State>, n: nat,
                                       r: RequestId, c: int) returns (i: int)
    requires IsRun(count, date, trace, states) && n <= |trace| && HasCount(states[n], r, c)
    ensures LastOf(trace, n, LoadCount(r), i) && states[i].count == c
  {
    NextCount(states[n - 1], trace[n - 1], r, c);
    if trace[n - 1] == LoadCount(r) {
      i := n - 1;
    } else {
      i := CountOrigin(count, date, trace, states, n - 1, r, c);
    }
  }

  lemma {:induction false} DateOrigin(count: nat, date: int, trace: seq<Step>, states: seq<State>, n: nat,
                                      r: RequestId, d: int) returns (k: int)
    requires IsRun(count, date, trace, states) && n <= |trace| && HasDate(states[n], r, d)
    ensures LastOf(trace, n, LoadDate(r), k) && states[k].date == d
  {
    NextDate(states[n - 1], trace[n - 1], r, d);
    if trace[n - 1] == LoadDate(r) {
      k := n - 1;
    } else {
      k := DateOrigin(count, date, trace, states, n - 1, r, d);
    }
  }

  /** The request at `j` is the last to have set the limiter, with the count it loaded at `i`. */
  ghost predicate SetBy(trace: seq<Step>, states: seq<State>, n: nat, i: int, j: int) {
    && |states| == |trace| + 1 && 0 <= j < n <= |trace| && Sets(states[j], trace[j])
    && LastOf(trace, j, LoadCount(trace[j].r), i)
    && forall k :: j < k < n ==> !Sets(states[k], trace[k])
  }

  ghost predicate NeverSet(trace: seq<Step>, states: seq<State>, n: nat) {
    |states| == |trace| + 1 && n <= |trace| && forall k :: 0 <= k < n ==> !Sets(states[k], trace[k])
  }

  /** The request at `m` is the last to have marked the endpoint, with the date it loaded at `k`. */
  predicate MarkedBy(trace: seq<Step>, n: nat, k: int, m: int) {
    && 0 <= m < n <= |trace| && trace[m].Mark? && LastOf(trace, m, LoadDate(trace[m].r), k)
    && forall q :: m < q < n ==> !trace[q].Mark?
  }

  predicate NeverMarked(trace: seq<Step>, n: nat) {
    n <= |trace| && forall k :: 0 <= k < n ==> !trace[k].Mark?
  }

  lemma NextShare(s: State, x: Step)
    requires Enabled(s, x)
    ensures Next(s, x).share == if Sets(s, x) then s.requests[x.r].count else s.share
    ensures Next(s, x).adjusted == if x.Mark? then s.requests[x.r].date else s.adjusted
  {
  }

  lemma {:induction false} ShareStays(count: nat, date: int, trace: seq<Step>, states: seq<State>, n: nat,
                                      i: int, j: int)
    requires IsRun(count, date, trace, states) && SetBy(trace, states, n, i, j)
    ensures states[n].share == states[i].count
  {
    NextShare(states[n - 1], trace[n - 1]);
    if j == n - 1 {
      var origin := CountOrigin(count, date, trace, states, j, trace[j].r, states[j].requests[trace[j].r].count);
    } else {
      ShareStays(count, date, trace, states, n - 1, i, j);
    }
  }

  lemma {:induction false} MarkStays(count: nat, date: int, trace: seq<Step>, states: seq<State>, n: nat,
                                     k: int, m: int)
    requires IsRun(count, date, trace, states) && MarkedBy(trace, n, k, m)
    ensures states[n].adjusted == states[k].date
  {
    NextShare(states[n - 1], trace[n - 1]);
    if m == n - 1 {
      var origin := DateOrigin(count, date, trace, states, m, trace[m].r, states[m].requests[trace[m].r].date);
    } else {
      MarkStays(count, date, trace, states, n - 1, k, m);
    }
  }

  lemma {:induction false} ShareOrigin(count: nat, date: int, trace: seq<Step>, states: seq<State>, n: nat)
    requires IsRun(count, date, trace, states) && n <= |trace|
    ensures NeverSet(trace, states, n) || exists i, j :: SetBy(trace, states, n, i, j)
    ensures NeverSet(trace, states, n) ==> states[n].share == 0
  {
    if n > 0 {
      var m := n - 1;
      ShareOrigin(count, date, trace, states, m);
      NextShare(states[m], trace[m]);
      if Sets(states[m], trace[m]) {
        var i := CountOrigin(count, date, trace, states, m, trace[m].r, states[m].requests[trace[m].r].count);
        assert SetBy(trace, states, n, i, m);
      } else if !NeverSet(trace, states, m) {
        var i, j :| SetBy(trace, states, m, i, j);
        assert SetBy(trace, states, n, i, j);
      }
    }
  }

  lemma {:induction false} MarkOrigin(count: nat, date: int, trace: seq<Step>, states: seq<State>, n: nat)
    requires IsRun(count, date, trace, states) && n <= |trace|
    ensures NeverMarked(trace, n) || exists k, m :: MarkedBy(trace, n, k, m)
    ensures NeverMarked(trace, n) ==> states[n].adjusted == 0
  {
    if n > 0 {
      var m := n - 1;
      MarkOrigin(count, date, trace, states, m);
      NextShare(states[m], trace[m]);
      if trace[m].Mark? {
        var k := DateOrigin(count, date, trace, states, m, trace[m].r, states[m].requests[trace[m].r].date);
        assert MarkedBy(trace, n, k, m);
      } else if !NeverMarked(trace, m) {
        var k, q :| MarkedBy(trace, m, k, q);
        assert MarkedBy(trace, n, k, q);
      }
    }
  }

  /** The date is later exactly when a handler has stored one. */
  lemma {:induction false} DatesIncrease(count: nat, date: int, trace: seq<Step>, states: seq<State>, k: nat, n: nat)
    requires IsRun(count, date, trace, states) && k <= n <= |trace|
    ensures states[k].date <= states[n].date
    ensures states[k].date == states[n].date <==> NoStamp(trace, k, n)
  {
    if k < n {
      DatesIncrease(count, date, trace, states, k, n - 1);
    }
  }

  predicate NoStamp(trace: seq<Step>, k: int, n: int) {
    0 <= k <= n <= |trace| && forall q :: k <= q < n ==> !trace[q].Stamp?
  }

  // ---------------------------------------------------------------- exactly when the limiter is misled

  /** The endpoint is not due for adjustment although its limiter is not at the current share. */
  predicate Misled(s: State) { s.adjusted >= s.date && s.share != s.count }

  /** The count that the last request to set the limiter had loaded is not the count now. */
  ghost predicate WrongShare(trace: seq<Step>, states: seq<State>, n: nat) {
    && |states| == |trace| + 1 && n <= |trace|
    && ((exists i, j :: SetBy(trace, states, n, i, j) && states[i].count != states[n].count)
        || (NeverSet(trace, states, n) && states[n].count != 0))
  }

  /** Since the last request to mark the endpoint loaded its date, no handler has stored one. */
  ghost predicate NotDue(trace: seq<Step>, states: seq<State>, n: nat) {
    && |states| == |trace| + 1 && n <= |trace|
    && ((exists k, m :: MarkedBy(trace, n, k, m) && NoStamp(trace, k, n))
        || (NeverMarked(trace, n) && states[n].date <= 0))
  }

  lemma WrongShareIs(count: nat, date: int, trace: seq<Step>, states: seq<State>, n: nat)
    requires IsRun(count, date, trace, states) && n <= |trace|
    ensures WrongShare(trace, states, n) <==> states[n].share != states[n].count
  {
    ShareOrigin(count, date, trace, states, n);
    if !NeverSet(trace, states, n) {
      var i, j :| SetBy(trace, states, n, i, j);
      ShareStays(count, date, trace, states, n, i, j);
    }
    if i, j :| SetBy(trace, states, n, i, j) && states[i].count != states[n].count {
      ShareStays(count, date, trace, states, n, i, j);
    }
  }

  lemma NotDueIs(count: nat, date: int, trace: seq<Step>, states: seq<State>, n: nat)
    requires IsRun(count, date, trace, states) && n <= |trace|
    ensures NotDue(trace, states, n) <==> states[n].adjusted >= states[n].date
  {
    MarkOrigin(count, date, trace, states, n);
    if !NeverMarked(trace, n) {
      var k, m :| MarkedBy(trace, n, k, m);
      MarkStays(count, date, trace, states, n, k, m);
      DatesIncrease(count, date, trace, states, k, n);
    }
    if k, m :| MarkedBy(trace, n, k, m) && NoStamp(trace, k, n) {
      MarkStays(count, date, trace, states, n, k, m);
      DatesIncrease(count, date, trace, states, k, n);
    }
  }

  /**
    On every interleaving a limiter that is not due runs at the wrong share
    exactly when the last request to set it had loaded another count than the
    present one, and no handler has stored a date since the last request to
    mark the endpoint loaded its own.
  */
  lemma MisledExactlyWhen(count: nat, date: int, trace: seq<Step>, states: seq<State>, n: nat)
    requires IsRun(count, date, trace, states) && n <= |trace|
    ensures Misled(states[n]) <==> WrongShare(trace, states, n) && NotDue(trace, states, n)
  {
    WrongShareIs(count, date, trace, states, n);
    NotDueIs(count, date, trace, states, n);
  }

  /** No request is under way and no handler between its two stores. */
  predicate Idle(s: State) { s.requests == map[] && !s.stampDue }

  /** The endpoint is not due, and no request under way will set the limiter or mark the endpoint. */
  predicate Harmless(s: State) {
    && s.adjusted >= s.date
    && forall r :: r in s.requests ==>
         s.requests[r].Counted? || (s.requests[r].Dated? && s.requests[r].date <= s.adjusted)
  }

  lemma NextHarmless(s: State, x: Step)
    requires Enabled(s, x) && Harmless(s) && !s.stampDue && !x.Change?
    ensures Harmless(Next(s, x)) && Next(s, x).share == s.share && Next(s, x).count == s.count && !Next(s, x).stampDue
  {
  }

  /** A misled limiter, with no request under way, stays so until the peers next change, whatever requests come. */
  lemma {:induction false} MisledUntilPeersChange(count: nat, date: int, trace: seq<Step>, states: seq<State>,
                                                  from: nat, n: nat)
    requires IsRun(count, date, trace, states) && from <= n <= |trace| && Idle(states[from]) && Misled(states[from])
    requires forall k :: from <= k < n ==> !trace[k].Change?
    ensures Harmless(states[n]) && Misled(states[n]) && !states[n].stampDue
    ensures states[n].share == states[from].share && states[n].count == states[from].count
  {
    if from < n {
      MisledUntilPeersChange(count, date, trace, states, from, n - 1);
      NextHarmless(states[n - 1], trace[n - 1]);
    }
  }

  /** For one: a peer comes between the two loads of a request. */
  lemma PeerBetweenTheLoads() returns (trace: seq<Step>, states: seq<State>)
    ensures IsRun(0, 0, trace, states) && |trace| == 6
    ensures Misled(states[6]) && Idle(states[6]) && states[6].share == 0 && states[6].count == 1
  {
    trace := [LoadCount(7), Change(1), Stamp(5), LoadDate(7), Adjust(7), Mark(7)];
    var s0 := Start(0, 0);
    var s1 := Next(s0, trace[0]);
    var s2 := Next(s1, trace[1]);
    var s3 := Next(s2, trace[2]);
    var s4 := Next(s3, trace[3]);
    var s5 := Next(s4, trace[4]);
    var s6 := Next(s5, trace[5]);
    states := [s0, s1, s2, s3, s4, s5, s6];
    assert s6.requests == map[];
  }
}

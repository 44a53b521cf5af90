/**
  The connection limiter (netlimiter.go). Concurrent `Accept` and `Close` calls
  interleave at the granularity of the atomic counter operations and of the
  closing of the underlying connections.
*/
module NetLimiter {
  import opened Wrappers

  type ConnId = nat

  /**
    A connection seen by `Accept`: counted, then refused, closed and released,
    or open and later released and closed.
  */
  datatype Phase = Arrived | Counted(current: int) | Refused | Dropping | Dropped | Open | Closing | Closed

  /** `repeats` records how often a connection was closed again after its first close. */
  datatype State = State(nConn: int, conns: map<ConnId, Phase>, repeats: nat)

  const Init := State(0, map[], 0)

  /** `Close` is the release a `Close` call starts with, `Shut` the closing of the socket it ends with. */
  datatype Label =
    | Arrive(id: ConnId)
    | Count(id: ConnId)
    | Decide(id: ConnId)
    | HangUp(id: ConnId)
    | Release(id: ConnId)
    | Close(id: ConnId)
    | Shut(id: ConnId)

  predicate At(s: State, id: ConnId, p: Phase) { id in s.conns && s.conns[id] == p }

  predicate Released(s: State, id: ConnId) { At(s, id, Closing) || At(s, id, Closed) }

  predicate Enabled(s: State, l: Label) {
    match l
    case Arrive(id) => id !in s.conns
    case Count(id) => At(s, id, Arrived)
    case Decide(id) => id in s.conns && s.conns[id].Counted?
    case HangUp(id) => At(s, id, Refused)
    case Release(id) => At(s, id, Dropping)
    case Close(id) => At(s, id, Open) || Released(s, id)
    case Shut(id) => At(s, id, Closing)
  }

  function Moved(s: State, id: ConnId, p: Phase): State { s.(conns := s.conns[id := p]) }

  function Next(maxConn: int, s: State, l: Label): State
    requires Enabled(s, l)
  {
    match l
    case Arrive(id) => Moved(s, id, Arrived)
    case Count(id) =>
      if maxConn > 0 then Moved(s, id, Counted(s.nConn + 1)).(nConn := s.nConn + 1)
      else Moved(s, id, Counted(0))
    case Decide(id) => Moved(s, id, if s.conns[id].current > maxConn then Refused else Open)
    case HangUp(id) => Moved(s, id, Dropping)
    case Release(id) => Moved(s, id, Dropped).(nConn := s.nConn - 1)
    case Close(id) =>
      if Released(s, id) then s.(nConn := s.nConn - 1, repeats := s.repeats + 1)
      else Moved(s, id, Closing).(nConn := s.nConn - 1)
    case Shut(id) => Moved(s, id, Closed)
  }

  ghost predicate Runs(maxConn: int, s: State, labels: seq<Label>, t: State)
    decreases |labels|
  {
    if labels == [] then t == s
    else Enabled(s, labels[0]) && Runs(maxConn, Next(maxConn, s, labels[0]), labels[1..], t)
  }

  function OpenConns(s: State): set<ConnId> { set id | id in s.conns && s.conns[id].Open? }

  function ClosingConns(s: State): set<ConnId> { set id | id in s.conns && s.conns[id].Closing? }

  /** The connections handed out whose socket is not closed yet. */
  function Sockets(s: State): set<ConnId> { set id | id in s.conns && (s.conns[id].Open? || s.conns[id].Closing?) }

  /** Connections the counter still accounts for: open ones and those on their way to a refusal or an answer. */
  function Held(s: State): set<ConnId> {
    set id | id in s.conns &&
      (s.conns[id].Counted? || s.conns[id].Refused? || s.conns[id].Dropping? || s.conns[id].Open?)
  }

  /** Connections that are open or already certain to be. */
  function Admitted(maxConn: int, s: State): set<ConnId> {
    set id | id in s.conns && (s.conns[id].Open? || (s.conns[id].Counted? && s.conns[id].current <= maxConn))
  }

  // ---------------------------------------------------------------- what every step keeps

  ghost predicate Inv(maxConn: int, s: State) {
    s.nConn + s.repeats == |Held(s)| && |Admitted(maxConn, s)| <= maxConn + s.repeats
  }

  lemma AdmittedIsHeld(maxConn: int, s: State)
    ensures Admitted(maxConn, s) <= Held(s) && |Admitted(maxConn, s)| <= |Held(s)|
    ensures OpenConns(s) <= Admitted(maxConn, s) && |OpenConns(s)| <= |Admitted(maxConn, s)|
  {
    SubsetSize(Admitted(maxConn, s), Held(s));
    SubsetSize(OpenConns(s), Admitted(maxConn, s));
  }

  lemma HeldAfter(maxConn: int, s: State, l: Label)
    requires maxConn > 0 && Enabled(s, l)
    ensures var t := Next(maxConn, s, l);
            Held(t) ==
              if l.Count? then Held(s) + {l.id}
              else if l.Release? || l.Close? then Held(s) - {l.id}
              else Held(s)
    ensures l.Count? ==> l.id !in Held(s)
    ensures l.Release? ==> l.id in Held(s)
    ensures l.Close? ==> (l.id in Held(s) <==> !Released(s, l.id))
  {
  }

  lemma AdmittedAfter(maxConn: int, s: State, l: Label)
    requires maxConn > 0 && Enabled(s, l)
    ensures var t := Next(maxConn, s, l);
            Admitted(maxConn, t) ==
              if l.Count? && s.nConn + 1 <= maxConn then Admitted(maxConn, s) + {l.id}
              else if l.Close? then Admitted(maxConn, s) - {l.id}
              else Admitted(maxConn, s)
    ensures l.Close? ==> (l.id in Admitted(maxConn, s) <==> !Released(s, l.id))
  {
  }

  lemma NextKeepsInv(maxConn: int, s: State, l: Label)
    requires maxConn > 0 && Inv(maxConn, s) && Enabled(s, l)
    ensures Inv(maxConn, Next(maxConn, s, l))
  {
    HeldAfter(maxConn, s, l);
    AdmittedAfter(maxConn, s, l);
    AdmittedIsHeld(maxConn, Next(maxConn, s, l));
  }

  lemma SocketsAreOpenOrClosing(s: State)
    ensures |Sockets(s)| == |OpenConns(s)| + |ClosingConns(s)|
  {
    assert Sockets(s) == OpenConns(s) + ClosingConns(s);
    assert OpenConns(s) !! ClosingConns(s);
  }

  /**
    For every interleaving the counter accounts for the held connections, up
    to repeated closes. Those are also all that can push the open connections
    over the maximum; sockets exceed it further by the closes in flight.
  */
  lemma {:induction false} CounterAndLimit(maxConn: int, s: State, labels: seq<Label>, t: State)
    requires maxConn > 0 && Inv(maxConn, s) && Runs(maxConn, s, labels, t)
    ensures Inv(maxConn, t)
    ensures t.nConn == |Held(t)| - t.repeats
    ensures |OpenConns(t)| <= maxConn + t.repeats
    ensures |Sockets(t)| <= maxConn + |ClosingConns(t)| + t.repeats
    decreases |labels|
  {
    if labels == [] {
      AdmittedIsHeld(maxConn, t);
      SocketsAreOpenOrClosing(t);
    } else {
      NextKeepsInv(maxConn, s, labels[0]);
      CounterAndLimit(maxConn, Next(maxConn, s, labels[0]), labels[1..], t);
    }
  }

  // ---------------------------------------------------------------- repeated closes

  /** How often a run closes a connection. */
  function Closes(labels: seq<Label>, id: ConnId): nat {
    if labels == [] then 0 else (if labels[0] == Close(id) then 1 else 0) + Closes(labels[1..], id)
  }

  predicate ClosedTwice(labels: seq<Label>, id: ConnId) { Closes(labels, id) > 1 }

  function ClosedBefore(s: State, id: ConnId): nat { if Released(s, id) then 1 else 0 }

  lemma {:induction false} ClosedOnceMeansNoRepeats(maxConn: int, s: State, labels: seq<Label>, t: State)
    requires Runs(maxConn, s, labels, t)
    requires forall id :: Closes(labels, id) + ClosedBefore(s, id) <= 1
    ensures t.repeats == s.repeats
    decreases |labels|
  {
    if labels != [] {
      var l := labels[0];
      var s1 := Next(maxConn, s, l);
      assert Closes(labels, l.id) == (if l == Close(l.id) then 1 else 0) + Closes(labels[1..], l.id);
      forall id ensures Closes(labels[1..], id) + ClosedBefore(s1, id) <= 1 {
        assert Closes(labels, id) + ClosedBefore(s, id) <= 1;
      }
      ClosedOnceMeansNoRepeats(maxConn, s1, labels[1..], t);
    }
  }

  lemma {:induction false} RepeatsGrow(maxConn: int, s: State, labels: seq<Label>, t: State, id: ConnId)
    requires Runs(maxConn, s, labels, t)
    ensures t.repeats >= s.repeats
    ensures Closes(labels, id) + ClosedBefore(s, id) > 1 ==> t.repeats > s.repeats
    decreases |labels|
  {
    if labels != [] {
      RepeatsGrow(maxConn, Next(maxConn, s, labels[0]), labels[1..], t, id);
    }
  }

  /** A run from the start has closed some connection twice exactly when it recorded a repeat. */
  lemma RepeatsExactlyWhenClosedTwice(maxConn: int, labels: seq<Label>, t: State)
    requires Runs(maxConn, Init, labels, t)
    ensures t.repeats > 0 <==> exists id :: ClosedTwice(labels, id)
  {
    if id :| ClosedTwice(labels, id) {
      RepeatsGrow(maxConn, Init, labels, t, id);
    } else {
      assert forall id :: Closes(labels, id) > 1 ==> ClosedTwice(labels, id);
      ClosedOnceMeansNoRepeats(maxConn, Init, labels, t);
    }
  }

  lemma InitInv(maxConn: int)
    requires maxConn > 0
    ensures Inv(maxConn, Init)
  {
    assert Held(Init) == {} && Admitted(maxConn, Init) == {};
  }

  /** With single closes the counter is open connections plus those in flight, and the maximum holds. */
  lemma LimitHolds(maxConn: int, labels: seq<Label>, t: State)
    requires maxConn > 0 && Runs(maxConn, Init, labels, t)
    requires forall id :: Closes(labels, id) <= 1
    ensures t.nConn == |Held(t)|
    ensures |OpenConns(t)| <= maxConn
    ensures |Sockets(t)| <= maxConn + |ClosingConns(t)|
  {
    InitInv(maxConn);
    CounterAndLimit(maxConn, Init, labels, t);
    RepeatsExactlyWhenClosedTwice(maxConn, labels, t);
  }

  // ---------------------------------------------------------------- exactly when the limit can fail

  function CountedConns(s: State): set<ConnId> { set id | id in s.conns && s.conns[id].Counted? }

  function RefusedConns(s: State): set<ConnId> { set id | id in s.conns && s.conns[id].Refused? }

  function DroppingConns(s: State): set<ConnId> { set id | id in s.conns && s.conns[id].Dropping? }

  lemma {:induction false} FreshId(used: set<ConnId>) returns (id: ConnId)
    ensures id !in used && forall x :: x in used ==> x < id
  {
    id := 0;
    if used != {} {
      var x: ConnId :| x in used;
      var rest := used - {x};
      var y := FreshId(rest);
      id := if y <= x then x + 1 else y;
      assert used == rest + {x};
    }
  }

  /** A run that closes nothing. */
  predicate NoCloses(labels: seq<Label>) { forall l :: l in labels ==> !l.Close? && !l.Shut? }

  ghost predicate Full(maxConn: int, s: State, labels: seq<Label>, t: State) {
    && Runs(maxConn, s, labels, t) && NoCloses(labels)
    && t.repeats == s.repeats && ClosingConns(t) == ClosingConns(s)
    && |OpenConns(t)| == maxConn + s.repeats
  }

  lemma FullAfterStep(maxConn: int, s: State, l: Label, rest: seq<Label>, t: State)
    requires Enabled(s, l) && !l.Close? && !l.Shut? && Full(maxConn, Next(maxConn, s, l), rest, t)
    ensures Full(maxConn, s, [l] + rest, t)
  {
    assert ([l] + rest)[1..] == rest;
    assert ClosingConns(Next(maxConn, s, l)) == ClosingConns(s);
  }

  lemma Admit(maxConn: int, s: State) returns (id: ConnId, t: State)
    requires maxConn > 0 && Inv(maxConn, s) && s.nConn < maxConn
    ensures Enabled(s, Arrive(id)) && Enabled(Next(maxConn, s, Arrive(id)), Count(id))
    ensures var counted := Next(maxConn, Next(maxConn, s, Arrive(id)), Count(id));
            Enabled(counted, Decide(id)) && t == Next(maxConn, counted, Decide(id))
    ensures Inv(maxConn, t) && t.nConn == s.nConn + 1
    ensures CountedConns(t) == CountedConns(s) && RefusedConns(t) == RefusedConns(s)
              && DroppingConns(t) == DroppingConns(s)
  {
    id := FreshId(s.conns.Keys);
    var arrived := Next(maxConn, s, Arrive(id));
    var counted := Next(maxConn, arrived, Count(id));
    t := Next(maxConn, counted, Decide(id));
    NextKeepsInv(maxConn, s, Arrive(id));
    NextKeepsInv(maxConn, arrived, Count(id));
    NextKeepsInv(maxConn, counted, Decide(id));
  }

  /** With nothing in flight the counter is the open connections, less the repeats. */
  lemma SettledCount(maxConn: int, s: State)
    requires Inv(maxConn, s) && CountedConns(s) == {} && RefusedConns(s) == {} && DroppingConns(s) == {}
    ensures |OpenConns(s)| == s.nConn + s.repeats && s.nConn <= maxConn
  {
    forall id | id in s.conns ensures !s.conns[id].Counted? && !s.conns[id].Refused? && !s.conns[id].Dropping? {
      assert id !in CountedConns(s) && id !in RefusedConns(s) && id !in DroppingConns(s);
    }
    assert Held(s) == OpenConns(s);
    AdmittedIsHeld(maxConn, s);
  }

  lemma DecideSettles(maxConn: int, s: State, id: ConnId)
    requires Enabled(s, Decide(id))
    ensures |CountedConns(Next(maxConn, s, Decide(id)))| < |CountedConns(s)|
  {
    assert CountedConns(Next(maxConn, s, Decide(id))) == CountedConns(s) - {id};
  }

  lemma HangUpSettles(maxConn: int, s: State, id: ConnId)
    requires Enabled(s, HangUp(id))
    ensures var t := Next(maxConn, s, HangUp(id));
            CountedConns(t) == CountedConns(s) && |RefusedConns(t)| < |RefusedConns(s)|
  {
    var t := Next(maxConn, s, HangUp(id));
    assert CountedConns(t) == CountedConns(s) && RefusedConns(t) == RefusedConns(s) - {id};
  }

  lemma ReleaseSettles(maxConn: int, s: State, id: ConnId)
    requires Enabled(s, Release(id))
    ensures var t := Next(maxConn, s, Release(id));
            && CountedConns(t) == CountedConns(s) && RefusedConns(t) == RefusedConns(s)
            && |DroppingConns(t)| < |DroppingConns(s)|
  {
    var t := Next(maxConn, s, Release(id));
    assert CountedConns(t) == CountedConns(s) && RefusedConns(t) == RefusedConns(s);
    assert DroppingConns(t) == DroppingConns(s) - {id};
  }

  /** One step that settles a connection in flight: decide, then hang up, then release. */
  lemma SettleStep(maxConn: int, s: State) returns (l: Label)
    requires CountedConns(s) + RefusedConns(s) + DroppingConns(s) != {}
    ensures Enabled(s, l) && !l.Close? && !l.Shut?
    ensures var t := Next(maxConn, s, l);
            || |CountedConns(t)| < |CountedConns(s)|
            || (CountedConns(t) == CountedConns(s) && |RefusedConns(t)| < |RefusedConns(s)|)
            || (CountedConns(t) == CountedConns(s) && RefusedConns(t) == RefusedConns(s)
                && |DroppingConns(t)| < |DroppingConns(s)|)
  {
    var id :| id in CountedConns(s) + RefusedConns(s) + DroppingConns(s);
    if id in CountedConns(s) {
      l := Decide(id);
      DecideSettles(maxConn, s, id);
    } else if id in RefusedConns(s) {
      l := HangUp(id);
      HangUpSettles(maxConn, s, id);
    } else {
      l := Release(id);
      ReleaseSettles(maxConn, s, id);
    }
  }

  /** From every state the limiter can be filled, without any close, to the maximum plus the repeated closes. */
  lemma {:induction false} CanFill(maxConn: int, s: State) returns (labels: seq<Label>, t: State)
    requires maxConn > 0 && Inv(maxConn, s)
    ensures Full(maxConn, s, labels, t)
    decreases |CountedConns(s)|, |RefusedConns(s)|, |DroppingConns(s)|,
      if s.nConn < maxConn then maxConn - s.nConn else 0
  {
    if CountedConns(s) + RefusedConns(s) + DroppingConns(s) != {} {
      var l := SettleStep(maxConn, s);
      NextKeepsInv(maxConn, s, l);
      labels, t := CanFill(maxConn, Next(maxConn, s, l));
      FullAfterStep(maxConn, s, l, labels, t);
      labels := [l] + labels;
    } else if s.nConn < maxConn {
      var id, u := Admit(maxConn, s);
      labels, t := CanFill(maxConn, u);
      var arrived := Next(maxConn, s, Arrive(id));
      FullAfterStep(maxConn, Next(maxConn, arrived, Count(id)), Decide(id), labels, t);
      FullAfterStep(maxConn, arrived, Count(id), [Decide(id)] + labels, t);
      FullAfterStep(maxConn, s, Arrive(id), [Count(id)] + ([Decide(id)] + labels), t);
      labels := [Arrive(id)] + ([Count(id)] + ([Decide(id)] + labels));
    } else {
      SettledCount(maxConn, s);
      labels, t := [], s;
    }
  }

  ghost predicate CanExceed(maxConn: int, t: State) {
    exists more, u :: Runs(maxConn, t, more, u) && u.repeats == t.repeats && |OpenConns(u)| > maxConn
  }

  /**
    For every maximum and every run: from there the limit can be exceeded exactly when a connection
    was closed twice.
  */
  lemma LimitCanFailExactlyWhen(maxConn: int, labels: seq<Label>, t: State)
    requires maxConn > 0 && Runs(maxConn, Init, labels, t)
    ensures CanExceed(maxConn, t) <==> exists id :: ClosedTwice(labels, id)
  {
    InitInv(maxConn);
    CounterAndLimit(maxConn, Init, labels, t);
    RepeatsExactlyWhenClosedTwice(maxConn, labels, t);
    if more, u :| Runs(maxConn, t, more, u) && u.repeats == t.repeats && |OpenConns(u)| > maxConn {
      CounterAndLimit(maxConn, t, more, u);
    }
    if t.repeats > 0 {
      var more, u := CanFill(maxConn, t);
    }
  }

  ghost predicate CanExceedInSockets(maxConn: int, t: State) {
    exists more, u :: Runs(maxConn, t, more, u) && NoCloses(more) && |Sockets(u)| > maxConn
  }

  lemma {:induction false} NoClosesKeep(maxConn: int, s: State, labels: seq<Label>, t: State)
    requires Runs(maxConn, s, labels, t) && NoCloses(labels)
    ensures t.repeats == s.repeats && ClosingConns(t) == ClosingConns(s)
    decreases |labels|
  {
    if labels != [] {
      assert labels[0] in labels;
      assert forall l :: l in labels[1..] ==> l in labels;
      var s1 := Next(maxConn, s, labels[0]);
      assert ClosingConns(s1) == ClosingConns(s);
      NoClosesKeep(maxConn, s1, labels[1..], t);
    }
  }

  /** Sockets can exceed the maximum, with no further close, exactly after a repeated close or during any close. */
  lemma SocketsCanExceedExactlyWhen(maxConn: int, labels: seq<Label>, t: State)
    requires maxConn > 0 && Runs(maxConn, Init, labels, t)
    ensures CanExceedInSockets(maxConn, t) <==> ClosingConns(t) != {} || exists id :: ClosedTwice(labels, id)
  {
    InitInv(maxConn);
    CounterAndLimit(maxConn, Init, labels, t);
    RepeatsExactlyWhenClosedTwice(maxConn, labels, t);
    if more, u :| Runs(maxConn, t, more, u) && NoCloses(more) && |Sockets(u)| > maxConn {
      CounterAndLimit(maxConn, t, more, u);
      NoClosesKeep(maxConn, t, more, u);
    }
    if ClosingConns(t) != {} || t.repeats > 0 {
      var more, u := CanFill(maxConn, t);
      SocketsAreOpenOrClosing(u);
    }
  }

  /** During a single close another connection gets in: two sockets under a maximum of one. */
  lemma CloseInFlightOverAdmits() returns (t: State)
    ensures Reachable(1, t) && t.repeats == 0 && Sockets(t) == {0, 1}
  {
    assert Runs(1, Init, [], Init);
    t := Accepted(1, Init, 0);
    t := Step(1, t, Close(0));
    t := Accepted(1, t, 1);
  }

  // ---------------------------------------------------------------- refusals

  lemma {:induction false} CountedStays(maxConn: int, s: State, labels: seq<Label>, t: State, id: ConnId)
    requires Runs(maxConn, s, labels, t) && id in s.conns
    ensures id in t.conns && (t.conns[id].Arrived? ==> s.conns[id].Arrived?)
    ensures t.conns[id].Counted? ==> s.conns[id].Arrived? || t.conns[id] == s.conns[id]
    decreases |labels|
  {
    if labels != [] {
      CountedStays(maxConn, Next(maxConn, s, labels[0]), labels[1..], t, id);
    }
  }

  /**
    Whatever happens between its count and its decision, a connection is refused
    exactly when, as it was counted, the others held the maximum, repeated
    closes taken off.
  */
  lemma RefusedExactlyWhenFull(maxConn: int, s: State, id: ConnId, labels: seq<Label>, t: State)
    requires maxConn > 0 && Inv(maxConn, s) && Enabled(s, Count(id))
    requires Runs(maxConn, Next(maxConn, s, Count(id)), labels, t) && Enabled(t, Decide(id))
    ensures Next(maxConn, t, Decide(id)).conns[id].Refused? <==> |Held(s)| - s.repeats >= maxConn
  {
    CountedStays(maxConn, Next(maxConn, s, Count(id)), labels, t, id);
  }

  ghost predicate Reachable(maxConn: int, t: State) {
    exists labels :: Runs(maxConn, Init, labels, t)
  }

  lemma {:induction false} RunsSnoc(maxConn: int, s: State, labels: seq<Label>, t: State, l: Label)
    requires Runs(maxConn, s, labels, t) && Enabled(t, l)
    ensures Runs(maxConn, s, labels + [l], Next(maxConn, t, l))
    decreases |labels|
  {
    if labels == [] {
      assert labels + [l] == [l] && [l][1..] == [];
      assert Runs(maxConn, Next(maxConn, t, l), [], Next(maxConn, t, l));
    } else {
      assert (labels + [l])[1..] == labels[1..] + [l];
      RunsSnoc(maxConn, Next(maxConn, s, labels[0]), labels[1..], t, l);
    }
  }

  lemma Step(maxConn: int, s: State, l: Label) returns (t: State)
    requires Reachable(maxConn, s) && Enabled(s, l)
    ensures t == Next(maxConn, s, l) && Reachable(maxConn, t)
  {
    var labels :| Runs(maxConn, Init, labels, s);
    RunsSnoc(maxConn, Init, labels, s, l);
    t := Next(maxConn, s, l);
  }

  lemma Accepted(maxConn: int, s: State, id: ConnId) returns (t: State)
    requires Reachable(maxConn, s) && id !in s.conns && maxConn > 0
    ensures Reachable(maxConn, t)
    ensures t == Moved(s, id, if s.nConn + 1 > maxConn then Refused else Open).(nConn := s.nConn + 1)
  {
    t := Step(maxConn, s, Arrive(id));
    t := Step(maxConn, t, Count(id));
    t := Step(maxConn, t, Decide(id));
  }

  /** Refusals on their way out count too: a connection can be refused while none is open. */
  lemma RefusedWithNoneOpen() returns (t: State)
    ensures Reachable(1, t) && t.repeats == 0 && OpenConns(t) == {} && At(t, 2, Refused)
  {
    assert Runs(1, Init, [], Init);
    t := Accepted(1, Init, 0);
    t := Accepted(1, t, 1);
    t := Step(1, t, Close(0));
    t := Accepted(1, t, 2);
  }

  /** One connection closed twice lets a second one in above a maximum of one. */
  lemma RepeatedCloseOverAdmits() returns (t: State)
    ensures Reachable(1, t) && t.repeats == 1 && OpenConns(t) == {1, 2}
  {
    assert Runs(1, Init, [], Init);
    t := Accepted(1, Init, 0);
    t := Step(1, t, Close(0));
    t := Step(1, t, Close(0));
    t := Accepted(1, t, 1);
    t := Accepted(1, t, 2);
  }

  /** A maximum of zero switches the limiter off: nothing is ever refused. */
  lemma {:induction false} ZeroMeansUnlimited(s: State, labels: seq<Label>, t: State)
    requires Runs(0, s, labels, t)
    requires forall id :: id in s.conns ==> !s.conns[id].Refused? && (s.conns[id].Counted? ==> s.conns[id].current == 0)
    ensures forall id :: id in t.conns ==> !t.conns[id].Refused?
    decreases |labels|
  {
    if labels != [] {
      ZeroMeansUnlimited(Next(0, s, labels[0]), labels[1..], t);
    }
  }

  /** And a negative one refuses everything. */
  lemma {:induction false} NegativeRefusesAll(maxConn: int, s: State, labels: seq<Label>, t: State)
    requires maxConn < 0 && Runs(maxConn, s, labels, t)
    requires forall id :: id in s.conns ==> !s.conns[id].Open? && (s.conns[id].Counted? ==> s.conns[id].current == 0)
    ensures OpenConns(t) == {}
    decreases |labels|
  {
    if labels != [] {
      NegativeRefusesAll(maxConn, Next(maxConn, s, labels[0]), labels[1..], t);
    }
  }
}

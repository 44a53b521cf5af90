/**
  The request/reply handshake of a publication: any number of `Reply` calls
  (publication.go) race the one response handler started for the publication
  (pubsub_nats.go) over the publication's mutex, its unbuffered reply channel
  and the reply timeout. Every blocking point of the two programs is a state;
  what runs under the mutex without blocking is one step.
*/
module ReplyHandshake {

  type CallerId = nat
  type Payload = seq<int>

  datatype Response = Nil | Message(data: Payload)

  /** What a `Reply` call returns. */
  datatype Outcome = Sent | TookTooLong | NilResponse | AlreadyReplied | NoResponseRequired

  /** Where a `Reply` call stands: before the mutex, at its channel send, past it, or back. */
  datatype Point = Waiting | AtSend | Handed | Returned(outcome: Outcome)

  datatype Caller = Caller(response: Response, at: Point)

  /** Where the response handler stands; `Absent` when the message wanted no publication back. */
  datatype Handler =
    | Absent
    | Selecting
    | Received(data: Payload)
    | Published(data: Payload)
    | Failed(data: Payload)
    | TimedOut
    | Expired

  datatype Holder = Free | HeldBy(id: CallerId)

  /**
    `lock` is the publication's mutex, `hasChannel` says that its `replyCh` is
    not nil, and `winner` records which call handed its response over.
  */
  datatype State = State(
    lock: Holder,
    winner: Holder,
    replied: bool,
    timedOut: bool,
    hasChannel: bool,
    callers: map<CallerId, Caller>,
    handler: Handler,
    toClient: seq<Payload>)

  /** The handler closure: a channel and a response handler exist exactly when a publication is wanted back. */
  function Init(wantsReply: bool): State {
    State(Free, Free, false, false, wantsReply, map[], if wantsReply then Selecting else Absent, [])
  }

  datatype Label =
    | Call(id: CallerId, response: Response)
    | Enter(id: CallerId)
    | HandOver(id: CallerId)
    | Leave(id: CallerId)
    | Publish
    | PublishFails
    | Fire
    | Expire

  /** The checks `Reply` makes under the mutex, in their order. */
  function Verdict(s: State, response: Response): Outcome {
    if s.timedOut then TookTooLong
    else if response.Nil? then NilResponse
    else if s.replied then AlreadyReplied
    else if !s.hasChannel then NoResponseRequired
    else Sent
  }

  predicate At(s: State, id: CallerId, p: Point) {
    id in s.callers && s.callers[id].at == p
  }

  predicate Enabled(s: State, l: Label) {
    match l
    case Call(id, _) => id !in s.callers
    case Enter(id) => At(s, id, Waiting) && s.lock.Free?
    case HandOver(id) => At(s, id, AtSend) && s.callers[id].response.Message? && s.handler.Selecting?
    case Leave(id) => At(s, id, Handed)
    case Publish => s.handler.Received?
    case PublishFails => s.handler.Received?
    case Fire => s.handler.Selecting?
    case Expire => s.handler.TimedOut? && s.lock.Free?
  }

  function Moved(s: State, id: CallerId, p: Point): map<CallerId, Caller>
    requires id in s.callers
  {
    s.callers[id := s.callers[id].(at := p)]
  }

  function Next(s: State, l: Label): State
    requires Enabled(s, l)
  {
    match l
    case Call(id, r) => s.(callers := s.callers[id := Caller(r, Waiting)])
    case Enter(id) =>
      var verdict := Verdict(s, s.callers[id].response);
      if verdict.Sent? then s.(lock := HeldBy(id), callers := Moved(s, id, AtSend))
      else s.(callers := Moved(s, id, Returned(verdict)))
    case HandOver(id) =>
      s.(winner := HeldBy(id), callers := Moved(s, id, Handed), handler := Received(s.callers[id].response.data))
    case Leave(id) => s.(replied := true, lock := Free, callers := Moved(s, id, Returned(Sent)))
    case Publish => s.(handler := Published(s.handler.data), toClient := s.toClient + [s.handler.data])
    case PublishFails => s.(handler := Failed(s.handler.data))
    case Fire => s.(handler := TimedOut)
    case Expire => s.(timedOut := true, hasChannel := false, handler := Expired)
  }

  ghost predicate Runs(s: State, labels: seq<Label>, t: State)
    decreases |labels|
  {
    if labels == [] then t == s
    else Enabled(s, labels[0]) && Runs(Next(s, labels[0]), labels[1..], t)
  }

  ghost predicate Reachable(s: State) {
    exists wantsReply: bool, labels: seq<Label> :: Runs(Init(wantsReply), labels, s)
  }

  // ---------------------------------------------------------------- invariant

  predicate Delivered(c: Caller) { c.at.Handed? || c.at == Returned(Sent) }

  predicate CallerInv(s: State, i: CallerId)
    requires i in s.callers
  {
    var c := s.callers[i];
    && (c.at.AtSend? || c.at.Handed? <==> s.lock == HeldBy(i))
    && (Delivered(c) <==> s.winner == HeldBy(i))
    && (c.at.AtSend? || Delivered(c) ==> c.response.Message?)
    && (c.at == Returned(Sent) ==> s.replied)
    && (c.at.Handed? ==> !s.replied)
    && (c.at.AtSend? ==> s.winner.Free? && s.hasChannel)
  }

  predicate HandlerInv(s: State) {
    && (s.lock.HeldBy? ==> s.lock.id in s.callers)
    && (s.winner.HeldBy? ==> s.winner.id in s.callers)
    && (s.winner.HeldBy? <==> s.handler.Received? || s.handler.Published? || s.handler.Failed?)
    && (s.winner.HeldBy? ==> s.callers[s.winner.id].response == Message(s.handler.data))
    && (s.replied ==> s.winner.HeldBy?)
    && (s.hasChannel <==> !s.handler.Absent? && !s.handler.Expired?)
    && (s.timedOut <==> s.handler.Expired?)
    && (s.winner.HeldBy? && !s.replied ==> s.lock == s.winner)
    && s.toClient == (if s.handler.Published? then [s.handler.data] else [])
  }

  ghost predicate Inv(s: State) {
    HandlerInv(s) && forall i :: i in s.callers ==> CallerInv(s, i)
  }

  lemma NextKeepsInv(s: State, l: Label)
    requires Inv(s) && Enabled(s, l)
    ensures Inv(Next(s, l))
  {
    var t := Next(s, l);
    assert s.lock.HeldBy? ==> CallerInv(s, s.lock.id);
    assert s.winner.HeldBy? ==> CallerInv(s, s.winner.id);
    assert (l.Enter? || l.HandOver? || l.Leave?) ==> CallerInv(s, l.id);
    assert HandlerInv(t);
    forall i | i in t.callers ensures CallerInv(t, i) {
      assert i in s.callers ==> CallerInv(s, i);
    }
  }

  lemma {:induction false} RunsKeepInv(s: State, labels: seq<Label>, t: State)
    requires Inv(s) && Runs(s, labels, t)
    ensures Inv(t)
    decreases |labels|
  {
    if labels != [] {
      NextKeepsInv(s, labels[0]);
      RunsKeepInv(Next(s, labels[0]), labels[1..], t);
    }
  }

  lemma ReachableInv(s: State)
    requires Reachable(s)
    ensures Inv(s)
  {
    var w: bool, labels :| Runs(Init(w), labels, s);
    RunsKeepInv(Init(w), labels, s);
  }

  // ---------------------------------------------------------------- safety

  /**
    At most one reply is handed over; what reaches the client is the response
    of that one call; and replying excludes expiring.
  */
  lemma AtMostOneReply(s: State)
    requires Reachable(s)
    ensures forall i, j :: i in s.callers && j in s.callers && Delivered(s.callers[i]) && Delivered(s.callers[j]) ==>
              i == j
    ensures s.toClient == [] ||
            exists i :: i in s.callers && Delivered(s.callers[i]) && s.callers[i].response.Message? &&
                        s.toClient == [s.callers[i].response.data]
    ensures !(s.replied && s.timedOut)
    ensures s.timedOut ==> forall i :: i in s.callers ==> !Delivered(s.callers[i])
  {
    ReachableInv(s);
    forall i | i in s.callers ensures Delivered(s.callers[i]) <==> s.winner == HeldBy(i) {
      assert CallerInv(s, i);
    }
  }

  /** The outcome a call came back with is the one its response and the state called for. */
  predicate OutcomeInv(s: State, i: CallerId)
    requires i in s.callers
  {
    var c := s.callers[i];
    && (c.at == Returned(Sent) ==> c.response.Message?)
    && (c.at == Returned(NilResponse) ==> c.response.Nil?)
    && (c.at == Returned(TookTooLong) ==> s.timedOut)
    && (c.at == Returned(AlreadyReplied) ==> c.response.Message? && s.replied)
    && (c.at == Returned(NoResponseRequired) ==> c.response.Message? && s.handler.Absent?)
    && (c.response.Nil? ==> c.at.Waiting? || c.at == Returned(NilResponse) || c.at == Returned(TookTooLong))
  }

  lemma NextKeepsOutcomes(s: State, l: Label)
    requires Inv(s) && Enabled(s, l) && forall i :: i in s.callers ==> OutcomeInv(s, i)
    ensures forall i :: i in Next(s, l).callers ==> OutcomeInv(Next(s, l), i)
  {
    var t := Next(s, l);
    assert l.Enter? || l.HandOver? || l.Leave? ==> CallerInv(s, l.id);
    forall i | i in t.callers ensures OutcomeInv(t, i) {
      assert i in s.callers ==> OutcomeInv(s, i);
    }
  }

  lemma {:induction false} RunsKeepOutcomes(s: State, labels: seq<Label>, t: State)
    requires Inv(s) && Runs(s, labels, t) && forall i :: i in s.callers ==> OutcomeInv(s, i)
    ensures forall i :: i in t.callers ==> OutcomeInv(t, i)
    decreases |labels|
  {
    if labels != [] {
      NextKeepsInv(s, labels[0]);
      NextKeepsOutcomes(s, labels[0]);
      RunsKeepOutcomes(Next(s, labels[0]), labels[1..], t);
    }
  }

  /**
    On every run each call returns what it should: a nil response is told so,
    unless the publication has expired; a response is told of an expiry, of an
    earlier reply, or that none is wanted, only when that is so; and when none
    is wanted it is told nothing else.
  */
  lemma OutcomesAreRight(s: State, i: CallerId)
    requires Reachable(s) && i in s.callers && s.callers[i].at.Returned?
    ensures s.callers[i].response.Nil? ==>
              s.callers[i].at.outcome == NilResponse || s.callers[i].at.outcome == TookTooLong
    ensures s.callers[i].at.outcome == NilResponse ==> s.callers[i].response.Nil?
    ensures s.callers[i].at.outcome == TookTooLong ==> s.timedOut
    ensures s.callers[i].at.outcome == AlreadyReplied ==> s.replied && s.callers[i].response.Message?
    ensures s.callers[i].at.outcome == NoResponseRequired ==> s.handler.Absent?
    ensures s.handler.Absent? && s.callers[i].response.Message? ==> s.callers[i].at.outcome == NoResponseRequired
    ensures s.handler.Absent? && s.callers[i].response.Nil? ==> s.callers[i].at.outcome == NilResponse
  {
    var w: bool, labels :| Runs(Init(w), labels, s);
    RunsKeepOutcomes(Init(w), labels, s);
    ReachableInv(s);
    assert OutcomeInv(s, i) && CallerInv(s, i);
  }

  /**
    In a finished state the client has an answer exactly when one call returned success and the
    publish did not fail.
  */
  lemma FinishedAnswerMatchesSuccess(s: State)
    requires Reachable(s) && Final(s)
    ensures s.toClient != [] <==> (exists i :: At(s, i, Returned(Sent))) && !s.handler.Failed?
    ensures s.replied <==> exists i :: At(s, i, Returned(Sent))
  {
    ReachableInv(s);
    forall i | i in s.callers ensures CallerInv(s, i) {
    }
    assert s.winner.HeldBy? ==> At(s, s.winner.id, Returned(Sent));
  }

  /** A call can return success although the client never gets an answer: the publish that follows fails. */
  lemma SuccessWithoutAnswerIsReachable(data: Payload)
    ensures exists s :: Reachable(s) && Final(s) && At(s, 0, Returned(Sent)) && s.toClient == []
  {
    var s := Init(true);
    assert Runs(s, [], s);
    s := ReachableStep(s, Call(0, Message(data)));
    s := ReachableStep(s, Enter(0));
    s := ReachableStep(s, HandOver(0));
    s := ReachableStep(s, Leave(0));
    s := ReachableStep(s, PublishFails);
    assert Final(s);
  }

  lemma ReachableStep(s: State, l: Label) returns (t: State)
    requires Reachable(s) && Enabled(s, l)
    ensures t == Next(s, l) && Reachable(t)
  {
    ReachableNext(s, l);
    t := Next(s, l);
  }

  /** A call that has not passed its checks when the publication expires returns the timeout error. */
  lemma {:induction false} LateRepliesFail(s: State, labels: seq<Label>, t: State, i: CallerId)
    requires Inv(s) && s.timedOut && Runs(s, labels, t)
    requires i !in s.callers || At(s, i, Waiting) || At(s, i, Returned(TookTooLong))
    ensures t.timedOut
    ensures i !in t.callers || At(t, i, Waiting) || At(t, i, Returned(TookTooLong))
    decreases |labels|
  {
    if labels != [] {
      NextKeepsInv(s, labels[0]);
      LateRepliesFail(Next(s, labels[0]), labels[1..], t, i);
    }
  }

  // ---------------------------------------------------------------- progress

  /** Everything the program itself can do; `Call` is the environment's. */
  predicate Internal(l: Label) { !l.Call? }

  ghost predicate Stuck(s: State) {
    forall l: Label :: Internal(l) ==> !Enabled(s, l)
  }

  predicate Final(s: State) {
    && (s.handler.Absent? || s.handler.Published? || s.handler.Failed? || s.handler.Expired?)
    && forall i :: i in s.callers ==> s.callers[i].at.Returned?
  }

  /** The handler has taken the timeout branch while a `Reply` sits at its channel send with the mutex. */
  ghost predicate Deadlocked(s: State) {
    s.handler.TimedOut? && exists i :: At(s, i, AtSend)
  }

  /** Under the invariant the mutex tells who is inside. */
  lemma LockTellsWho(s: State, i: CallerId)
    requires Inv(s)
    ensures At(s, i, AtSend) || At(s, i, Handed) <==> s.lock == HeldBy(i)
  {
    assert i in s.callers ==> CallerInv(s, i);
  }

  lemma DeadlockedIsStuck(s: State)
    requires Inv(s) && Deadlocked(s)
    ensures Stuck(s) && !Final(s)
  {
    var i :| At(s, i, AtSend);
    forall l: Label | Internal(l) ensures !Enabled(s, l) {
      LockTellsWho(s, i);
      if l.Leave? { LockTellsWho(s, l.id); }
    }
  }

  /** The only states in which nothing can move and something is unfinished are the deadlocked ones. */
  lemma StuckExactlyWhenDeadlocked(s: State)
    requires Reachable(s)
    ensures Stuck(s) && !Final(s) <==> Deadlocked(s)
  {
    ReachableInv(s);
    if Deadlocked(s) {
      DeadlockedIsStuck(s);
    } else if !Final(s) && !Enabled(s, Publish) && !Enabled(s, Fire) && !Enabled(s, Expire) {
      if s.lock.HeldBy? {
        var i := s.lock.id;
        LockTellsWho(s, i);
        assert CallerInv(s, i);
        assert Enabled(s, Leave(i));
      } else {
        var i :| i in s.callers && !s.callers[i].at.Returned?;
        LockTellsWho(s, i);
        assert Enabled(s, Enter(i));
      }
    }
  }

  /** A deadlock is for ever: whatever is called afterwards, nobody returns and the publication never expires. */
  lemma {:induction false} DeadlockIsForEver(s: State, labels: seq<Label>, t: State)
    requires Inv(s) && Deadlocked(s) && Runs(s, labels, t)
    ensures Deadlocked(t) && !t.timedOut && t.toClient == []
    ensures forall l :: l in labels ==> l.Call?
    ensures forall i :: i in t.callers && t.callers[i].at.Returned? ==> i in s.callers && s.callers[i].at.Returned?
    decreases |labels|
  {
    if labels != [] {
      DeadlockedIsStuck(s);
      assert labels[0].Call?;
      var i :| At(s, i, AtSend);
      var s1 := Next(s, labels[0]);
      assert At(s1, i, AtSend);
      NextKeepsInv(s, labels[0]);
      DeadlockIsForEver(s1, labels[1..], t);
    }
  }

  /** A deadlock is entered in exactly two ways, one on each side of the race. */
  lemma DeadlockEnteredExactlyWhen(s: State, l: Label)
    requires Inv(s) && Enabled(s, l) && !Deadlocked(s)
    ensures Deadlocked(Next(s, l)) <==>
            || (l.Fire? && exists i :: At(s, i, AtSend))
            || (l.Enter? && s.handler.TimedOut? && s.callers[l.id].response.Message?)
  {
    var t := Next(s, l);
    assert forall i :: At(s, i, AtSend) && l.Fire? ==> At(t, i, AtSend);
    assert l.Enter? && s.handler.TimedOut? && s.callers[l.id].response.Message? ==> At(t, l.id, AtSend);
    assert forall i :: At(t, i, AtSend) ==> At(s, i, AtSend) || l == Enter(i);
  }

  /** The shortest way in: a reply arrives, the timer fires, the reply passes its checks. */
  lemma DeadlockIsReachable(data: Payload)
    ensures exists s :: Reachable(s) && Deadlocked(s)
  {
    var s := Init(true);
    assert Runs(s, [], s);
    s := ReachableStep(s, Call(0, Message(data)));
    s := ReachableStep(s, Fire);
    s := ReachableStep(s, Enter(0));
    assert At(s, 0, AtSend);
    assert Reachable(s) && Deadlocked(s);
  }

  function Weight(p: Point): nat {
    match p
    case Waiting => 3
    case AtSend => 2
    case Handed => 1
    case Returned(_) => 0
  }

  function HandlerWork(h: Handler): nat {
    match h
    case Selecting => 2
    case Received(_) => 1
    case TimedOut => 1
    case _ => 0
  }

  /** The calls that still have at least `w` steps to go. */
  ghost function AtLeast(s: State, w: nat): set<CallerId> {
    set i | i in s.callers && Weight(s.callers[i].at) >= w
  }

  /** Work left: the steps every unfinished call and the handler can still take. */
  ghost function Work(s: State): nat {
    |AtLeast(s, 1)| + |AtLeast(s, 2)| + |AtLeast(s, 3)| + HandlerWork(s.handler)
  }

  lemma Shrinks(s: State, t: State, id: CallerId, p: Point, w: nat)
    requires id in s.callers && t.callers == Moved(s, id, p)
    requires Weight(p) < Weight(s.callers[id].at)
    ensures AtLeast(t, w) <= AtLeast(s, w) && |AtLeast(t, w)| <= |AtLeast(s, w)|
    ensures w == Weight(s.callers[id].at) ==> |AtLeast(t, w)| < |AtLeast(s, w)|
  {
    assert AtLeast(t, w) == if Weight(p) < w <= Weight(s.callers[id].at) then AtLeast(s, w) - {id} else AtLeast(s, w);
  }

  lemma InternalStepsDoWork(s: State, l: Label)
    requires Enabled(s, l) && Internal(l)
    ensures Work(Next(s, l)) < Work(s)
  {
    var t := Next(s, l);
    if l.Enter? || l.HandOver? || l.Leave? {
      forall w: nat | 1 <= w <= 3
        ensures |AtLeast(t, w)| <= |AtLeast(s, w)|
        ensures w == Weight(s.callers[l.id].at) ==> |AtLeast(t, w)| < |AtLeast(s, w)|
      {
        Shrinks(s, t, l.id, t.callers[l.id].at, w);
      }
    } else {
      assert forall w: nat :: AtLeast(t, w) == AtLeast(s, w);
    }
  }

  /**
    Without new calls every run is bounded by the work left, so every run can
    only end finished or, when the race was lost, deadlocked.
  */
  lemma {:induction false} RunsEndFinishedOrDeadlocked(s: State, labels: seq<Label>, t: State)
    requires Reachable(s) && Runs(s, labels, t)
    requires forall l :: l in labels ==> Internal(l)
    ensures |labels| + Work(t) <= Work(s)
    ensures Stuck(t) ==> Final(t) || Deadlocked(t)
    decreases |labels|
  {
    if labels == [] {
      StuckExactlyWhenDeadlocked(s);
    } else {
      InternalStepsDoWork(s, labels[0]);
      ReachableNext(s, labels[0]);
      RunsEndFinishedOrDeadlocked(Next(s, labels[0]), labels[1..], t);
    }
  }

  lemma ReachableNext(s: State, l: Label)
    requires Reachable(s) && Enabled(s, l)
    ensures Reachable(Next(s, l))
  {
    var w: bool, labels :| Runs(Init(w), labels, s);
    RunsSnoc(Init(w), labels, s, l);
  }

  lemma {:induction false} RunsSnoc(s: State, labels: seq<Label>, t: State, l: Label)
    requires Runs(s, labels, t) && Enabled(t, l)
    ensures Runs(s, labels + [l], Next(t, l))
    decreases |labels|
  {
    if labels == [] {
      assert labels + [l] == [l] && [l][1..] == [];
      assert Runs(Next(t, l), [], Next(t, l));
    } else {
      assert (labels + [l])[1..] == labels[1..] + [l];
      RunsSnoc(Next(s, labels[0]), labels[1..], t, l);
    }
  }
}

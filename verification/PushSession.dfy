/**
  A websocket push session (websocket_push_session.go): any number of senders
  put frames in a bounded queue while the session loop writes them out and
  processes what the client sends. One event is one send, or one branch of the
  loop's select.
*/
module PushSession {
  import opened Wrappers

  type Frame = seq<int>
  type Parameters = map<string, seq<string>>

  const CAPACITY := 64
  const ENABLE_ERRORS := "enableErrors"

  datatype Config = Config(filters: map<string, seq<string>>, parameters: Parameters)

  /** What decoding a client message and parsing its filters makes of it. */
  datatype Message = Undecodable | BadFilters | Good(config: Config)

  /** `Read` also carries the encoded error event, absent when it could not be prepared. */
  datatype Event =
    | Send(frame: Frame)
    | Write
    | Read(message: Message, errorEvent: Option<Frame>)
    | ConnError
    | ConnDone
    | ContextDone

  /** `accepted` and `dropped` record which sends entered the queue and which found it full. */
  datatype Session = Session(
    queue: seq<Frame>,
    written: seq<Frame>,
    accepted: seq<Frame>,
    dropped: seq<Frame>,
    errorState: bool,
    config: Option<Config>,
    parameters: Parameters,
    running: bool)

  function NewSession(parameters: Parameters): Session {
    Session([], [], [], [], false, None, parameters, true)
  }

  // ---------------------------------------------------------------- specification

  function AfterSend(s: Session, f: Frame): Session {
    if |s.queue| < CAPACITY then s.(queue := s.queue + [f], accepted := s.accepted + [f])
    else s.(dropped := s.dropped + [f])
  }

  predicate HandlesErrors(s: Session) { ENABLE_ERRORS in s.parameters }

  function AfterRead(s: Session, m: Message, errorEvent: Option<Frame>): Session {
    if m.Good? then
      s.(errorState := false, config := Some(m.config), parameters := s.parameters + m.config.parameters)
    else if !HandlesErrors(s) then s.(running := false)
    else if errorEvent.None? then s.(errorState := true)
    else AfterSend(s.(errorState := true), errorEvent.value)
  }

  /** An event whose branch cannot be taken, because the loop has ended or the queue is empty, changes nothing. */
  function After(s: Session, e: Event): Session {
    match e
    case Send(f) => AfterSend(s, f)
    case Write =>
      if s.running && s.queue != [] then s.(queue := s.queue[1..], written := s.written + [s.queue[0]]) else s
    case Read(m, errorEvent) => if s.running then AfterRead(s, m, errorEvent) else s
    case ConnError => s
    case ConnDone => s.(running := false)
    case ContextDone => s.(running := false)
  }

  function Run(s: Session, events: seq<Event>): Session {
    if events == [] then s else After(Run(s, events[..|events| - 1]), events[|events| - 1])
  }

  // ---------------------------------------------------------------- the queue

  ghost predicate QueueInv(s: Session) {
    s.written + s.queue == s.accepted && |s.queue| <= CAPACITY
  }

  /**
    Whatever the interleaving, the frames written followed by the frames
    waiting are the accepted sends in their order, and at most 64 wait.
  */
  lemma {:induction false} FramesKeepOrder(s: Session, events: seq<Event>)
    requires QueueInv(s)
    ensures QueueInv(Run(s, events))
    ensures Run(s, events).written + Run(s, events).queue == Run(s, events).accepted && |Run(s, events).queue| <= 64
  {
    if events != [] {
      var before := events[..|events| - 1];
      FramesKeepOrder(s, before);
      var r := Run(s, before);
      var e := events[|events| - 1];
      if e.Write? && r.running && r.queue != [] {
        assert r.written + [r.queue[0]] + r.queue[1..] == r.written + r.queue;
      }
      assert forall f :: r.written + (r.queue + [f]) == (r.written + r.queue) + [f];
    }
  }

  /** The frames an event offers to the queue of a session. */
  function Offered(s: Session, e: Event): seq<Frame> {
    match e
    case Send(f) => [f]
    case Read(m, Some(f)) => if s.running && !m.Good? && HandlesErrors(s) then [f] else []
    case _ => []
  }

  /** No frame vanishes: each one offered is accepted or dropped, and dropped exactly when 64 are waiting. */
  lemma DroppedExactlyWhenFull(s: Session, e: Event)
    ensures var t := After(s, e);
            && t.dropped == s.dropped + (if |s.queue| >= 64 then Offered(s, e) else [])
            && t.accepted == s.accepted + (if |s.queue| < 64 then Offered(s, e) else [])
  {
    assert s.dropped + [] == s.dropped && s.accepted + [] == s.accepted;
  }

  /** What is offered: every frame sent, and the error event of a rejected message when the client asked for them. */
  lemma OfferedFrames(s: Session, f: Frame, m: Message)
    ensures Offered(s, Send(f)) == [f]
    ensures Offered(s, Read(m, Some(f))) ==
            if s.running && !m.Good? && "enableErrors" in s.parameters then [f] else []
    ensures Offered(s, Read(m, None)) == [] && Offered(s, Write) == []
  {
  }

  /** A running loop that is given the time writes the waiting frames out, oldest first. */
  lemma {:induction false} WritesDrain(s: Session, n: nat)
    requires s.running && n <= |s.queue|
    ensures var t := Run(s, seq(n, _ => Write));
            t == s.(written := s.written + s.queue[..n], queue := s.queue[n..])
  {
    var events := seq(n, _ => Write);
    if n > 0 {
      WritesDrain(s, n - 1);
      assert events[..n - 1] == seq(n - 1, _ => Write);
      assert s.queue[n - 1..][1..] == s.queue[n..] && s.queue[n - 1..][0] == s.queue[n - 1];
      assert s.written + s.queue[..n - 1] + [s.queue[n - 1]] == s.written + s.queue[..n];
    } else {
      assert s.written + s.queue[..0] == s.written && s.queue[0..] == s.queue;
    }
  }

  // ---------------------------------------------------------------- the error state and the configuration

  predicate Rejected(e: Event) { e.Read? && !e.message.Good? }

  predicate Accepted(e: Event) { e.Read? && e.message.Good? }

  predicate AsksForErrors(e: Event) { Accepted(e) && ENABLE_ERRORS in e.message.config.parameters }

  /** `i` is the last of the `events` that satisfies `p`. */
  predicate IsLast(events: seq<Event>, p: Event -> bool, i: int) {
    0 <= i < |events| && p(events[i]) && forall j :: i < j < |events| ==> !p(events[j])
  }

  lemma LastOfLonger(events: seq<Event>, p: Event -> bool, i: int)
    requires |events| > 0
    ensures var n := |events| - 1;
            IsLast(events, p, i) <==> if p(events[n]) then i == n else IsLast(events[..n], p, i)
  {
    var n := |events| - 1;
    assert forall j :: 0 <= j < n ==> events[..n][j] == events[j];
  }

  lemma RunningBefore(s: Session, events: seq<Event>)
    requires events != [] && Run(s, events).running
    ensures Run(s, events[..|events| - 1]).running
  {
  }

  /** While the loop runs, the session is in its error state exactly when the last client message was rejected. */
  lemma {:induction false} ErrorStateIsLastVerdict(parameters: Parameters, events: seq<Event>)
    requires Run(NewSession(parameters), events).running
    ensures Run(NewSession(parameters), events).errorState <==>
            exists i :: IsLast(events, (e: Event) => e.Read?, i) && Rejected(events[i])
  {
    var s := NewSession(parameters);
    if events != [] {
      var n := |events| - 1;
      RunningBefore(s, events);
      ErrorStateIsLastVerdict(parameters, events[..n]);
      var isRead := (e: Event) => e.Read?;
      forall i
        ensures IsLast(events, isRead, i) <==> if events[n].Read? then i == n else IsLast(events[..n], isRead, i)
      {
        LastOfLonger(events, isRead, i);
      }
      if events[n].Read? {
        assert IsLast(events, isRead, n);
      }
    }
  }

  /** While the loop runs, the push configuration is the last accepted one, and none before the first. */
  lemma {:induction false} ConfigIsLastAccepted(parameters: Parameters, events: seq<Event>, c: Config)
    requires Run(NewSession(parameters), events).running
    ensures Run(NewSession(parameters), events).config == Some(c) <==>
            exists i :: IsLast(events, Accepted, i) && events[i].message == Good(c)
  {
    var s := NewSession(parameters);
    if events != [] {
      var n := |events| - 1;
      RunningBefore(s, events);
      ConfigIsLastAccepted(parameters, events[..n], c);
      forall i
        ensures IsLast(events, Accepted, i) <==>
                if Accepted(events[n]) then i == n else IsLast(events[..n], Accepted, i)
      {
        LastOfLonger(events, Accepted, i);
      }
      if Accepted(events[n]) {
        assert IsLast(events, Accepted, n);
      }
    }
  }

  /** The client switches error events on with the request or with any accepted configuration, and never off. */
  lemma {:induction false} ErrorEventsSwitchedOn(parameters: Parameters, events: seq<Event>)
    requires Run(NewSession(parameters), events).running
    ensures HandlesErrors(Run(NewSession(parameters), events)) <==>
            || ENABLE_ERRORS in parameters
            || exists i :: 0 <= i < |events| && AsksForErrors(events[i])
  {
    if events != [] {
      var n := |events| - 1;
      RunningBefore(NewSession(parameters), events);
      ErrorEventsSwitchedOn(parameters, events[..n]);
      assert forall i :: 0 <= i < n ==> events[..n][i] == events[i];
    }
  }

  predicate Gives(e: Event, key: string) { Accepted(e) && key in e.message.config.parameters }

  /** While the loop runs, a parameter has the value last given by an accepted configuration, else the request's. */
  lemma {:induction false} ParameterIsLastGiven(parameters: Parameters, events: seq<Event>, key: string)
    requires Run(NewSession(parameters), events).running
    ensures var now, given := Run(NewSession(parameters), events).parameters, (e: Event) => Gives(e, key);
            && (forall i :: IsLast(events, given, i) ==>
                  key in now && now[key] == events[i].message.config.parameters[key])
            && ((forall i :: !IsLast(events, given, i)) ==>
                  (key in now <==> key in parameters) && (key in now ==> now[key] == parameters[key]))
  {
    if events != [] {
      var n := |events| - 1;
      var given := (e: Event) => Gives(e, key);
      RunningBefore(NewSession(parameters), events);
      ParameterIsLastGiven(parameters, events[..n], key);
      forall i
        ensures IsLast(events, given, i) <==> if given(events[n]) then i == n else IsLast(events[..n], given, i)
      {
        LastOfLonger(events, given, i);
      }
      if Gives(events[n], key) { assert IsLast(events, given, n); }
    }
  }

  /** By event `i` the request or an accepted configuration had asked for error events. */
  predicate AskedForErrors(parameters: Parameters, events: seq<Event>, i: int) {
    || ENABLE_ERRORS in parameters
    || exists j :: 0 <= j < i && j < |events| && AsksForErrors(events[j])
  }

  /** Event `i` closes the connection or the context, or is a rejected message that nobody asked error events for. */
  predicate Ends(parameters: Parameters, events: seq<Event>, i: int) {
    && 0 <= i < |events|
    && (events[i].ConnDone? || events[i].ContextDone?
        || (Rejected(events[i]) && !AskedForErrors(parameters, events, i)))
  }

  lemma EndsBefore(parameters: Parameters, events: seq<Event>, n: nat, i: int)
    requires 0 <= i < n <= |events|
    ensures Ends(parameters, events[..n], i) <==> Ends(parameters, events, i)
  {
    assert forall j :: 0 <= j < n ==> events[..n][j] == events[j];
  }

  lemma AskedByLast(parameters: Parameters, events: seq<Event>)
    requires events != [] && Run(NewSession(parameters), events[..|events| - 1]).running
    ensures var n := |events| - 1;
            HandlesErrors(Run(NewSession(parameters), events[..n])) <==> AskedForErrors(parameters, events, n)
  {
    var n := |events| - 1;
    ErrorEventsSwitchedOn(parameters, events[..n]);
    assert forall j :: 0 <= j < n ==> events[..n][j] == events[j];
  }

  /** On every run the loop has ended exactly when one of the events so far ends it. */
  lemma {:induction false} LoopEndsExactlyWhen(parameters: Parameters, events: seq<Event>)
    ensures !Run(NewSession(parameters), events).running <==> exists i :: Ends(parameters, events, i)
  {
    if events != [] {
      var n := |events| - 1;
      LoopEndsExactlyWhen(parameters, events[..n]);
      forall i | 0 <= i < n { EndsBefore(parameters, events, n, i); }
      if Run(NewSession(parameters), events[..n]).running {
        AskedByLast(parameters, events);
        assert Ends(parameters, events, n) <==> !Run(NewSession(parameters), events).running;
      } else {
        var i :| Ends(parameters, events[..n], i);
        assert Ends(parameters, events, i);
      }
    }
  }

  // ---------------------------------------------------------------- the session object

  /** Merges the parameters of a configuration in, key by key, in any order. */
  method Merged(parameters: Parameters, more: Parameters) returns (all: Parameters)
    ensures all == parameters + more
  {
    all := parameters;
    var todo := more.Keys;
    while todo != {}
      invariant todo <= more.Keys
      invariant all == parameters + (more - todo)
    {
      var k :| k in todo;
      all := all[k := more[k]];
      todo := todo - {k};
    }
    assert more - todo == more;
  }

  class WsPushSession {
    var dataCh: seq<Frame>
    var errorStateActive: bool
    var pushConfig: Option<Config>
    var parameters: Parameters
    var running: bool
    /** What the websocket has been given to write. */
    var written: seq<Frame>
    ghost var accepted: seq<Frame>
    ghost var dropped: seq<Frame>

    ghost function View(): Session
      reads this
    {
      Session(dataCh, written, accepted, dropped, errorStateActive, pushConfig, parameters, running)
    }

    constructor (parameters: Parameters)
      ensures View() == NewSession(parameters)
    {
      dataCh, errorStateActive, pushConfig, running := [], false, None, true;
      this.parameters := parameters;
      written, accepted, dropped := [], [], [];
    }

    method Enqueue(data: Frame)
      modifies this
      ensures View() == AfterSend(old(View()), data)
    {
      if |dataCh| < CAPACITY {
        dataCh := dataCh + [data];
        accepted := accepted + [data];
      } else {
        dropped := dropped + [data];
      }
    }

    method SendWSError(errorEvent: Option<Frame>)
      requires HandlesErrors(View())
      modifies this
      ensures forall m: Message :: !m.Good? ==> View() == AfterRead(old(View()), m, errorEvent)
    {
      errorStateActive := true;
      if errorEvent.Some? {
        Enqueue(errorEvent.value);
      }
    }

    method SetCurrentPushConfig(f: Config)
      modifies this
      ensures View() == old(View()).(config := Some(f), parameters := old(parameters) + f.parameters)
    {
      pushConfig := Some(f);
      parameters := Merged(parameters, f.parameters);
    }

    /** The select loop, fed with the events it receives and those of the senders beside it. */
    method Listen(events: seq<Event>)
      modifies this
      ensures View() == Run(old(View()), events)
    {
      for i := 0 to |events|
        invariant View() == Run(old(View()), events[..i])
      {
        ghost var before := View();
        var e := events[i];
        match e {
          case Send(f) =>
            Enqueue(f);
          case Write =>
            if running && dataCh != [] {
              written := written + [dataCh[0]];
              dataCh := dataCh[1..];
            }
          case Read(m, errorEvent) =>
            if running {
              if m.Good? {
                errorStateActive := false;
                SetCurrentPushConfig(m.config);
              } else if ENABLE_ERRORS !in parameters {
                running := false;
              } else {
                SendWSError(errorEvent);
                assert View() == AfterRead(before, m, errorEvent);
              }
            }
          case ConnError =>
          case ConnDone =>
            running := false;
          case ContextDone =>
            running := false;
        }
        assert View() == After(before, e);
        assert events[..i + 1][..i] == events[..i];
      }
      assert events[..|events|] == events;
    }
  }
}

/**
  The in-process broker (pubsub_local.go). Its `listen` loop consumes commands
  one at a time; a publication is handed to every subscriber of its topic
  before the next command is looked at. Channels are names, and what a channel
  has been sent is its inbox.
*/
module LocalPubSub {

  newtype Chan = n: int | 0 <= n

  /** The copied part of a publication, and the reply machinery that is not copied. */
  datatype Publication = Publication(topic: string, content: seq<int>, hasReplyChannel: bool, replied: bool,
                                     timedOut: bool)

  /** `Publication.Duplicate` (publication.go) */
  function Duplicate(p: Publication): Publication {
    Publication(p.topic, p.content, false, false, false)
  }

  datatype Command =
    | Register(ch: Chan, topic: string)
    | Unregister(ch: Chan, topic: string)
    | Publish(publication: Publication)
    | Stop

  /** `panicked`: a send or a close hit a closed channel. */
  datatype Broker = Broker(
    subscribers: map<string, seq<Chan>>,
    inbox: map<Chan, seq<Publication>>,
    closed: set<Chan>,
    stopped: bool,
    panicked: bool)

  const NewBroker := Broker(map[], map[], {}, false, false)

  // ---------------------------------------------------------------- what the loop does with a command

  function Subscribers(b: Broker, topic: string): seq<Chan> {
    if topic in b.subscribers then b.subscribers[topic] else []
  }

  function Inbox(inbox: map<Chan, seq<Publication>>, c: Chan): seq<Publication> {
    if c in inbox then inbox[c] else []
  }

  function FirstIndex(subs: seq<Chan>, c: Chan): (i: nat)
    ensures i <= |subs| && c !in subs[..i]
    ensures i < |subs| ==> subs[i] == c
  {
    if subs == [] || subs[0] == c then 0
    else
      var i := 1 + FirstIndex(subs[1..], c);
      assert subs[..i] == [subs[0]] + subs[1..][..i - 1];
      i
  }

  function Deliver(inbox: map<Chan, seq<Publication>>, subs: seq<Chan>, p: Publication): map<Chan, seq<Publication>> {
    if subs == [] then inbox
    else
      var rest := Deliver(inbox, subs[..|subs| - 1], p);
      var c := subs[|subs| - 1];
      rest[c := Inbox(rest, c) + [p]]
  }

  function After(b: Broker, cmd: Command): Broker {
    if b.stopped || b.panicked then b
    else
      match cmd
      case Register(c, topic) =>
        b.(subscribers := b.subscribers[topic := Subscribers(b, topic) + [c]])
      case Unregister(c, topic) =>
        var subs := Subscribers(b, topic);
        var i := FirstIndex(subs, c);
        if i == |subs| then b
        else b.(subscribers := b.subscribers[topic := subs[..i] + subs[i + 1..]],
                closed := b.closed + {c},
                panicked := c in b.closed)
      case Publish(p) =>
        var subs := Subscribers(b, p.topic);
        if exists c :: c in subs && c in b.closed then b.(panicked := true)
        else b.(inbox := Deliver(b.inbox, subs, Duplicate(p)))
      case Stop => b.(subscribers := map[], stopped := true)
  }

  function Run(cmds: seq<Command>): Broker {
    if cmds == [] then NewBroker else After(Run(cmds[..|cmds| - 1]), cmds[|cmds| - 1])
  }

  // ---------------------------------------------------------------- what the commands say of a channel

  /** The registrations of `c` on `topic` that no unregistration has undone yet; none once the broker is stopped. */
  function Open(cmds: seq<Command>, c: Chan, topic: string): nat {
    if cmds == [] || Stop in cmds then 0
    else
      var n := |cmds| - 1;
      var before := Open(cmds[..n], c, topic);
      if cmds[n] == Register(c, topic) then before + 1
      else if cmds[n] == Unregister(c, topic) && before > 0 then before - 1
      else before
  }

  predicate TakesEffect(cmds: seq<Command>, n: int, c: Chan, topic: string) {
    0 <= n < |cmds| && cmds[n] == Unregister(c, topic) && Open(cmds[..n], c, topic) > 0
  }

  /** Some unregistration of `c` has taken effect, and closed it. */
  ghost predicate Shut(cmds: seq<Command>, c: Chan) {
    exists n, topic :: TakesEffect(cmds, n, c, topic)
  }

  /** The command makes the broker close `c`, or send on it, if `c` is registered on `topic`. */
  predicate Touches(cmd: Command, c: Chan, topic: string) {
    cmd == Unregister(c, topic) || (cmd.Publish? && cmd.publication.topic == topic)
  }

  /** After `cmds`, the next command meets a channel that is still registered although it was closed. */
  ghost predicate HitsNext(cmds: seq<Command>, cmd: Command) {
    exists c, topic :: Touches(cmd, c, topic) && Open(cmds, c, topic) > 0 && Shut(cmds, c)
  }

  ghost predicate HitsClosed(cmds: seq<Command>, n: int) {
    0 <= n < |cmds| && HitsNext(cmds[..n], cmds[n])
  }

  ghost predicate Hits(cmds: seq<Command>) { exists n :: HitsClosed(cmds, n) }

  lemma OpenAfter(cmds: seq<Command>, cmd: Command, c: Chan, topic: string)
    ensures Open(cmds + [cmd], c, topic) ==
            if Stop in cmds || cmd.Stop? then 0
            else if cmd == Register(c, topic) then Open(cmds, c, topic) + 1
            else if cmd == Unregister(c, topic) && Open(cmds, c, topic) > 0 then Open(cmds, c, topic) - 1
            else Open(cmds, c, topic)
  {
    assert (cmds + [cmd])[..|cmds|] == cmds;
  }

  lemma ShutAfter(cmds: seq<Command>, cmd: Command, c: Chan)
    ensures Shut(cmds + [cmd], c) <==>
            Shut(cmds, c) || (cmd.Unregister? && cmd.ch == c && Open(cmds, c, cmd.topic) > 0)
  {
    var longer := cmds + [cmd];
    forall n, topic | 0 <= n < |cmds| ensures TakesEffect(longer, n, c, topic) <==> TakesEffect(cmds, n, c, topic) {
      assert longer[..n] == cmds[..n];
    }
    assert longer[..|cmds|] == cmds;
    if cmd.Unregister? && cmd.ch == c && Open(cmds, c, cmd.topic) > 0 {
      assert TakesEffect(longer, |cmds|, c, cmd.topic);
    }
    if n, topic :| TakesEffect(cmds, n, c, topic) {
      assert TakesEffect(longer, n, c, topic);
    }
  }

  lemma HitsAfter(cmds: seq<Command>, cmd: Command)
    ensures Hits(cmds + [cmd]) <==> Hits(cmds) || HitsNext(cmds, cmd)
  {
    var longer := cmds + [cmd];
    forall n | 0 <= n < |cmds| ensures HitsClosed(longer, n) <==> HitsClosed(cmds, n) {
      assert longer[..n] == cmds[..n];
    }
    assert longer[..|cmds|] == cmds;
    assert HitsClosed(longer, |cmds|) <==> HitsNext(cmds, cmd);
    if n :| HitsClosed(cmds, n) {
      assert HitsClosed(longer, n);
    }
  }

  // ---------------------------------------------------------------- what the broker has of it

  /**
    As long as nothing went wrong the broker holds each channel once per open registration, and has
    closed the shut ones.
  */
  ghost predicate Agrees(cmds: seq<Command>, b: Broker) {
    && !b.panicked
    && (b.stopped <==> Stop in cmds)
    && (forall c, topic :: multiset(Subscribers(b, topic))[c] == Open(cmds, c, topic))
    && (forall c :: c in b.closed <==> Shut(cmds, c))
  }

  /** The command either meets a closed channel and panics, or keeps the agreement. */
  ghost predicate StepFits(cmds: seq<Command>, b: Broker, cmd: Command) {
    if HitsNext(cmds, cmd) then After(b, cmd).panicked && After(b, cmd).inbox == b.inbox
    else Agrees(cmds + [cmd], After(b, cmd))
  }

  lemma AfterRegister(cmds: seq<Command>, b: Broker, c: Chan, topic: string)
    requires Agrees(cmds, b) && !b.stopped
    ensures StepFits(cmds, b, Register(c, topic))
  {
    var cmd := Register(c, topic);
    forall d, t ensures multiset(Subscribers(After(b, cmd), t))[d] == Open(cmds + [cmd], d, t) {
      OpenAfter(cmds, cmd, d, t);
    }
    forall d ensures d in b.closed <==> Shut(cmds + [cmd], d) {
      ShutAfter(cmds, cmd, d);
    }
  }

  lemma CutAt(subs: seq<Chan>, i: nat)
    requires i < |subs|
    ensures multiset(subs[..i] + subs[i + 1..]) == multiset(subs) - multiset([subs[i]])
  {
    var front, back := subs[..i], subs[i + 1..];
    assert subs == front + ([subs[i]] + back);
    assert multiset(front + back) == multiset(front) + multiset(back);
  }

  lemma CutOut(subs: seq<Chan>, c: Chan)
    requires c in subs
    ensures var i := FirstIndex(subs, c);
            i < |subs| && multiset(subs[..i] + subs[i + 1..]) == multiset(subs) - multiset([c])
  {
    var i := FirstIndex(subs, c);
    assert i < |subs| by { assert subs[..|subs|] == subs; }
    CutAt(subs, i);
  }

  lemma NotThere(subs: seq<Chan>, c: Chan)
    requires c !in subs
    ensures FirstIndex(subs, c) == |subs|
  {
  }

  lemma UnregisterCuts(b: Broker, c: Chan, topic: string)
    requires !b.stopped && !b.panicked
    ensures var a, subs := After(b, Unregister(c, topic)), Subscribers(b, topic);
            && a.stopped == b.stopped && a.inbox == b.inbox && a.panicked == (c in subs && c in b.closed)
            && a.closed == (if c in subs then b.closed + {c} else b.closed)
            && multiset(Subscribers(a, topic)) == (if c in subs then multiset(subs) - multiset([c]) else multiset(subs))
            && forall t :: t != topic ==> Subscribers(a, t) == Subscribers(b, t)
  {
    if c in Subscribers(b, topic) {
      CutOut(Subscribers(b, topic), c);
    } else {
      NotThere(Subscribers(b, topic), c);
    }
  }

  lemma AfterUnregister(cmds: seq<Command>, b: Broker, c: Chan, topic: string)
    requires Agrees(cmds, b) && !b.stopped
    ensures StepFits(cmds, b, Unregister(c, topic))
  {
    var cmd := Unregister(c, topic);
    UnregisterCuts(b, c, topic);
    UnregisterHits(cmds, b, c, topic);
    UnregisterCounts(cmds, b, After(b, cmd), c, topic);
    forall d ensures d in After(b, cmd).closed <==> Shut(cmds + [cmd], d) {
      ShutAfter(cmds, cmd, d);
      assert d in Subscribers(b, topic) <==> Open(cmds, d, topic) > 0;
    }
  }

  lemma UnregisterHits(cmds: seq<Command>, b: Broker, c: Chan, topic: string)
    requires Agrees(cmds, b)
    ensures HitsNext(cmds, Unregister(c, topic)) <==> c in Subscribers(b, topic) && c in b.closed
  {
    var cmd := Unregister(c, topic);
    assert multiset(Subscribers(b, topic))[c] == Open(cmds, c, topic);
    assert Touches(cmd, c, topic);
    assert forall d, t :: Touches(cmd, d, t) ==> d == c && t == topic;
  }

  lemma UnregisterCounts(cmds: seq<Command>, b: Broker, a: Broker, c: Chan, topic: string)
    requires Stop !in cmds && forall d, t :: multiset(Subscribers(b, t))[d] == Open(cmds, d, t)
    requires forall t :: t != topic ==> Subscribers(a, t) == Subscribers(b, t)
    requires var subs := Subscribers(b, topic);
             multiset(Subscribers(a, topic)) == if c in subs then multiset(subs) - multiset([c]) else multiset(subs)
    ensures forall d, t :: multiset(Subscribers(a, t))[d] == Open(cmds + [Unregister(c, topic)], d, t)
  {
    forall d, t ensures multiset(Subscribers(a, t))[d] == Open(cmds + [Unregister(c, topic)], d, t) {
      OpenAfter(cmds, Unregister(c, topic), d, t);
      assert multiset(Subscribers(b, t))[d] == Open(cmds, d, t);
    }
  }

  lemma AfterPublish(cmds: seq<Command>, b: Broker, p: Publication)
    requires Agrees(cmds, b) && !b.stopped
    ensures StepFits(cmds, b, Publish(p))
    ensures !HitsNext(cmds, Publish(p)) ==>
              After(b, Publish(p)).inbox == Deliver(b.inbox, Subscribers(b, p.topic), Duplicate(p))
  {
    var cmd := Publish(p);
    var subs := Subscribers(b, p.topic);
    assert forall c :: c in subs <==> Open(cmds, c, p.topic) > 0;
    assert HitsNext(cmds, cmd) <==> exists c :: c in subs && c in b.closed by {
      if c :| c in subs && c in b.closed {
        assert Touches(cmd, c, p.topic);
      }
    }
    forall d, t ensures Open(cmds + [cmd], d, t) == Open(cmds, d, t) {
      OpenAfter(cmds, cmd, d, t);
    }
    forall d ensures Shut(cmds + [cmd], d) <==> Shut(cmds, d) {
      ShutAfter(cmds, cmd, d);
    }
  }

  /** A stop ends all registrations, and after it nothing happens. */
  lemma AfterStop(cmds: seq<Command>, b: Broker, cmd: Command)
    requires Agrees(cmds, b) && (b.stopped || cmd.Stop?)
    ensures StepFits(cmds, b, cmd)
  {
    forall d, t ensures Open(cmds + [cmd], d, t) == 0 {
      OpenAfter(cmds, cmd, d, t);
    }
    assert b.stopped ==> forall d, t :: Open(cmds, d, t) == 0;
    forall d ensures Shut(cmds + [cmd], d) <==> Shut(cmds, d) {
      ShutAfter(cmds, cmd, d);
    }
    assert !HitsNext(cmds, cmd) by {
      assert cmd.Stop? ==> forall c, topic :: !Touches(cmd, c, topic);
    }
  }

  lemma StepHolds(cmds: seq<Command>, b: Broker, cmd: Command)
    requires Agrees(cmds, b)
    ensures StepFits(cmds, b, cmd)
  {
    if b.stopped || cmd.Stop? {
      AfterStop(cmds, b, cmd);
    } else {
      match cmd
      case Register(c, topic) => AfterRegister(cmds, b, c, topic);
      case Unregister(c, topic) => AfterUnregister(cmds, b, c, topic);
      case Publish(p) => AfterPublish(cmds, b, p);
    }
  }

  // ---------------------------------------------------------------- exactly when the broker panics

  /**
    On every list of commands the broker panics exactly when one of them meets a registered channel
    that was closed.
  */
  lemma {:induction false} PanicsExactlyWhen(cmds: seq<Command>)
    ensures Run(cmds).panicked <==> Hits(cmds)
    ensures !Run(cmds).panicked ==> Agrees(cmds, Run(cmds))
  {
    if cmds == [] {
      assert !Hits([]);
      assert forall c :: !Shut([], c);
    } else {
      var n := |cmds| - 1;
      PanicsExactlyWhen(cmds[..n]);
      HitsAfter(cmds[..n], cmds[n]);
      assert cmds == cmds[..n] + [cmds[n]];
      if !Run(cmds[..n]).panicked {
        StepHolds(cmds[..n], Run(cmds[..n]), cmds[n]);
      }
    }
  }

  // ---------------------------------------------------------------- what a subscriber receives

  /** How often `c` gets publication `n`: once per open registration on its topic. */
  function Times(cmds: seq<Command>, c: Chan, n: nat): nat
    requires n < |cmds|
  {
    if cmds[n].Publish? then Open(cmds[..n], c, cmds[n].publication.topic) else 0
  }

  function Repeat<T>(x: T, k: nat): seq<T> { seq(k, _ => x) }

  /** The positions of the publications `c` gets, in processing order. */
  function DeliveredAt(cmds: seq<Command>, c: Chan): seq<nat> {
    if cmds == [] then []
    else
      var n: nat := |cmds| - 1;
      DeliveredAt(cmds[..n], c) + Repeat(n, Times(cmds, c, n))
  }

  lemma {:induction false} RepeatCounts(x: nat, k: nat, y: nat)
    ensures CountOf(Repeat(x, k), y) == if y == x then k else 0
  {
    if k > 0 {
      assert Repeat(x, k) == Repeat(x, k - 1) + [x];
      RepeatCounts(x, k - 1, y);
    }
  }

  lemma {:induction false} TimesOfPrefix(cmds: seq<Command>, c: Chan, last: nat, n: nat)
    requires n < last <= |cmds|
    ensures Times(cmds[..last], c, n) == Times(cmds, c, n)
  {
    assert cmds[..last][..n] == cmds[..n];
  }

  function CountOf(s: seq<nat>, n: nat): nat { multiset(s)[n] }

  /** `DeliveredAt` lists each position as often as it is due. */
  lemma {:induction false} DeliveredCounts(cmds: seq<Command>, c: Chan, n: nat)
    ensures CountOf(DeliveredAt(cmds, c), n) == if n < |cmds| then Times(cmds, c, n) else 0
  {
    if cmds != [] {
      var last: nat := |cmds| - 1;
      var times := Times(cmds, c, last);
      DeliveredCounts(cmds[..last], c, n);
      RepeatCounts(last, times, n);
      CountsAdd(DeliveredAt(cmds[..last], c), Repeat(last, times), n);
      assert DeliveredAt(cmds, c) == DeliveredAt(cmds[..last], c) + Repeat(last, times);
      if n < last {
        TimesOfPrefix(cmds, c, last, n);
      }
    }
  }

  lemma CountsAdd(a: seq<nat>, b: seq<nat>, n: nat)
    ensures CountOf(a + b, n) == CountOf(a, n) + CountOf(b, n)
  {
  }

  predicate Sound(cmds: seq<Command>, at: seq<nat>) {
    forall k :: 0 <= k < |at| ==> at[k] < |cmds| && cmds[at[k]].Publish?
  }

  predicate InOrder(at: seq<nat>) {
    forall k, l :: 0 <= k < l < |at| ==> at[k] <= at[l]
  }

  lemma {:induction false} DeliveredInOrder(cmds: seq<Command>, c: Chan)
    ensures Sound(cmds, DeliveredAt(cmds, c)) && InOrder(DeliveredAt(cmds, c))
  {
    if cmds != [] {
      DeliveredInOrder(cmds[..|cmds| - 1], c);
    }
  }

  /** `DeliveredAt` lists each position as often as it is due, and in order. */
  lemma DeliveredAtIsExact(cmds: seq<Command>, c: Chan)
    ensures forall n: nat :: CountOf(DeliveredAt(cmds, c), n) == if n < |cmds| then Times(cmds, c, n) else 0
    ensures Sound(cmds, DeliveredAt(cmds, c)) && InOrder(DeliveredAt(cmds, c))
  {
    DeliveredInOrder(cmds, c);
    forall n: nat { DeliveredCounts(cmds, c, n); }
  }

  function PublicationsAt(cmds: seq<Command>, at: seq<nat>): seq<Publication>
    requires Sound(cmds, at)
  {
    seq(|at|, k requires 0 <= k < |at| => Duplicate(cmds[at[k]].publication))
  }

  lemma {:induction false} DeliverCounts(inbox: map<Chan, seq<Publication>>, subs: seq<Chan>, p: Publication, c: Chan)
    ensures Inbox(Deliver(inbox, subs, p), c) == Inbox(inbox, c) + Repeat(p, multiset(subs)[c])
  {
    if subs != [] {
      var n := |subs| - 1;
      DeliverCounts(inbox, subs[..n], p, c);
      assert subs == subs[..n] + [subs[n]];
      var k := multiset(subs[..n])[c];
      assert Repeat(p, k + 1) == Repeat(p, k) + [p];
    }
  }

  lemma PublishDelivers(cmds: seq<Command>, b: Broker, p: Publication, c: Chan)
    requires Agrees(cmds, b) && !HitsNext(cmds, Publish(p))
    ensures Inbox(After(b, Publish(p)).inbox, c) ==
            Inbox(b.inbox, c) + Repeat(Duplicate(p), Open(cmds, c, p.topic))
  {
    if b.stopped {
      assert Open(cmds, c, p.topic) == 0;
    } else {
      AfterPublish(cmds, b, p);
      DeliverCounts(b.inbox, Subscribers(b, p.topic), Duplicate(p), c);
    }
  }

  lemma LastCommand(cmds: seq<Command>)
    requires cmds != [] && !Run(cmds).panicked
    ensures var n := |cmds| - 1;
            && Run(cmds) == After(Run(cmds[..n]), cmds[n]) && !HitsNext(cmds[..n], cmds[n])
            && !Run(cmds[..n]).panicked && Agrees(cmds[..n], Run(cmds[..n]))
  {
    var n := |cmds| - 1;
    PanicsExactlyWhen(cmds[..n]);
    PanicsExactlyWhen(cmds);
    HitsAfter(cmds[..n], cmds[n]);
    assert cmds == cmds[..n] + [cmds[n]];
  }

  /** The inbox grows by the copies due of the last command. */
  lemma InboxStep(cmds: seq<Command>, c: Chan)
    requires cmds != [] && !Run(cmds).panicked
    ensures !Run(cmds[..|cmds| - 1]).panicked
    ensures var n := |cmds| - 1;
            Inbox(Run(cmds).inbox, c) == Inbox(Run(cmds[..n]).inbox, c)
              + (if cmds[n].Publish? then Repeat(Duplicate(cmds[n].publication), Times(cmds, c, n)) else [])
  {
    var n := |cmds| - 1;
    LastCommand(cmds);
    if cmds[n].Publish? {
      PublishDelivers(cmds[..n], Run(cmds[..n]), cmds[n].publication, c);
    }
  }

  lemma PublicationsOfPrefix(cmds: seq<Command>, at: seq<nat>, n: nat)
    requires n <= |cmds| && Sound(cmds[..n], at)
    ensures Sound(cmds, at) && PublicationsAt(cmds[..n], at) == PublicationsAt(cmds, at)
  {
  }

  lemma PublicationsSplit(cmds: seq<Command>, at: seq<nat>, n: nat, k: nat)
    requires Sound(cmds, at) && n < |cmds| && cmds[n].Publish?
    ensures Sound(cmds, at + Repeat(n, k))
    ensures PublicationsAt(cmds, at + Repeat(n, k)) ==
            PublicationsAt(cmds, at) + Repeat(Duplicate(cmds[n].publication), k)
  {
  }

  lemma DeliveredLast(cmds: seq<Command>, c: Chan, inbox: seq<Publication>, before: seq<Publication>)
    requires cmds != []
    requires var n := |cmds| - 1;
             && Sound(cmds[..n], DeliveredAt(cmds[..n], c))
             && before == PublicationsAt(cmds[..n], DeliveredAt(cmds[..n], c))
             && inbox == before +
                  (if cmds[n].Publish? then Repeat(Duplicate(cmds[n].publication), Times(cmds, c, n)) else [])
    ensures Sound(cmds, DeliveredAt(cmds, c)) && inbox == PublicationsAt(cmds, DeliveredAt(cmds, c))
  {
    var n := |cmds| - 1;
    var at := DeliveredAt(cmds[..n], c);
    PublicationsOfPrefix(cmds, at, n);
    if cmds[n].Publish? {
      PublicationsSplit(cmds, at, n, Times(cmds, c, n));
    } else {
      assert DeliveredAt(cmds, c) == at;
    }
  }

  lemma {:induction false} ReceivesWhileRunning(cmds: seq<Command>, c: Chan)
    requires !Run(cmds).panicked
    ensures Sound(cmds, DeliveredAt(cmds, c))
    ensures Inbox(Run(cmds).inbox, c) == PublicationsAt(cmds, DeliveredAt(cmds, c))
  {
    if cmds != [] {
      var n := |cmds| - 1;
      InboxStep(cmds, c);
      ReceivesWhileRunning(cmds[..n], c);
      DeliveredLast(cmds, c, Inbox(Run(cmds).inbox, c), Inbox(Run(cmds[..n]).inbox, c));
    }
  }

  /** `p` is the position of the first command that meets a closed channel, or the end when none does. */
  ghost predicate IsEnd(cmds: seq<Command>, p: nat) {
    p <= |cmds| && (p < |cmds| ==> HitsClosed(cmds, p)) && forall n :: 0 <= n < p ==> !HitsClosed(cmds, n)
  }

  lemma HitsOfPrefix(cmds: seq<Command>, n: nat, k: nat)
    requires k < n <= |cmds|
    ensures HitsClosed(cmds[..n], k) <==> HitsClosed(cmds, k)
  {
    assert cmds[..n][..k] == cmds[..k];
  }

  lemma {:induction false} EndExists(cmds: seq<Command>) returns (p: nat)
    ensures IsEnd(cmds, p)
  {
    p := 0;
    if cmds != [] {
      var n := |cmds| - 1;
      p := EndExists(cmds[..n]);
      forall k: nat | k < n { HitsOfPrefix(cmds, n, k); }
      if p == n && !HitsClosed(cmds, n) {
        p := |cmds|;
      }
    }
  }

  lemma {:induction false} PanicIsFinal(cmds: seq<Command>, n: nat)
    requires n <= |cmds| && Run(cmds[..n]).panicked
    ensures Run(cmds) == Run(cmds[..n])
  {
    if n == |cmds| {
      assert cmds[..n] == cmds;
    } else {
      var last := |cmds| - 1;
      assert cmds[..last][..n] == cmds[..n];
      PanicIsFinal(cmds[..last], n);
    }
  }

  lemma NothingAfterEnd(cmds: seq<Command>, p: nat)
    requires IsEnd(cmds, p)
    ensures !Run(cmds[..p]).panicked && Run(cmds).inbox == Run(cmds[..p]).inbox
  {
    forall n: nat | n < p { HitsOfPrefix(cmds, p, n); }
    PanicsExactlyWhen(cmds[..p]);
    if p == |cmds| {
      assert cmds[..p] == cmds;
    } else {
      var upTo := cmds[..p + 1];
      assert upTo[..p] == cmds[..p] && upTo == cmds[..p] + [cmds[p]];
      StepHolds(cmds[..p], Run(cmds[..p]), cmds[p]);
      PanicIsFinal(cmds, p + 1);
    }
  }

  /**
    On every list of commands each channel receives, in processing order and up
    to the panic if there is one, every publication once per registration that
    is open on its topic, with its topic and content, and nothing else.
  */
  lemma ReceivesOncePerRegistration(cmds: seq<Command>, c: Chan, p: nat)
    requires IsEnd(cmds, p)
    ensures Sound(cmds, DeliveredAt(cmds[..p], c))
    ensures Inbox(Run(cmds).inbox, c) == PublicationsAt(cmds, DeliveredAt(cmds[..p], c))
    ensures var inbox, at := Inbox(Run(cmds).inbox, c), DeliveredAt(cmds[..p], c);
            |inbox| == |at| && forall k :: 0 <= k < |at| ==>
              && inbox[k].topic == cmds[at[k]].publication.topic && inbox[k].content == cmds[at[k]].publication.content
              && !inbox[k].hasReplyChannel && !inbox[k].replied && !inbox[k].timedOut
  {
    NothingAfterEnd(cmds, p);
    ReceivesWhileRunning(cmds[..p], c);
    PublicationsOfPrefix(cmds, DeliveredAt(cmds[..p], c), p);
  }

  /** Any two subscribers see the publications they both receive in the same order. */
  lemma SubscribersAgreeOnOrder(cmds: seq<Command>, c: Chan, d: Chan, i: nat, j: nat, k: nat, l: nat)
    requires i < |DeliveredAt(cmds, c)| && j < |DeliveredAt(cmds, c)| && k < |DeliveredAt(cmds, d)|
              && l < |DeliveredAt(cmds, d)|
    requires DeliveredAt(cmds, c)[i] == DeliveredAt(cmds, d)[k] && DeliveredAt(cmds, c)[j] == DeliveredAt(cmds, d)[l]
    requires DeliveredAt(cmds, c)[i] != DeliveredAt(cmds, c)[j]
    ensures i < j <==> k < l
  {
    DeliveredInOrder(cmds, c);
    DeliveredInOrder(cmds, d);
  }

  // ---------------------------------------------------------------- channels registered once

  /** Every channel is registered at most once. */
  predicate RegisteredOnce(cmds: seq<Command>) {
    forall i, j :: 0 <= i < j < |cmds| && cmds[i].Register? && cmds[j].Register? ==> cmds[i].ch != cmds[j].ch
  }

  predicate OpensWindow(cmds: seq<Command>, c: Chan, topic: string, i: int) {
    0 <= i < |cmds| && cmds[i] == Register(c, topic) && forall j :: i < j < |cmds| ==> cmds[j] != Unregister(c, topic)
  }

  /** After `cmds`, `c` is between its registration on `topic` and the matching unregistration. */
  ghost predicate InWindow(cmds: seq<Command>, c: Chan, topic: string) {
    Stop !in cmds && exists i :: OpensWindow(cmds, c, topic, i)
  }

  predicate Registered(cmds: seq<Command>, c: Chan) {
    exists i :: 0 <= i < |cmds| && cmds[i].Register? && cmds[i].ch == c
  }

  lemma WindowAfter(cmds: seq<Command>, c: Chan, topic: string)
    requires cmds != []
    ensures var n := |cmds| - 1;
            InWindow(cmds, c, topic) <==>
              && Stop !in cmds
              && (cmds[n] == Register(c, topic) || (InWindow(cmds[..n], c, topic) && cmds[n] != Unregister(c, topic)))
  {
    var n := |cmds| - 1;
    var before := cmds[..n];
    assert cmds == before + [cmds[n]];
    forall i | 0 <= i < n
      ensures OpensWindow(cmds, c, topic, i) <==> OpensWindow(before, c, topic, i) && cmds[n] != Unregister(c, topic)
    {
      assert forall j :: 0 <= j < n ==> before[j] == cmds[j];
    }
    assert OpensWindow(cmds, c, topic, n) <==> cmds[n] == Register(c, topic);
  }

  lemma RegisteredOnceBefore(cmds: seq<Command>, n: nat)
    requires RegisteredOnce(cmds) && n < |cmds|
    ensures RegisteredOnce(cmds[..n])
    ensures cmds[n].Register? ==> !Registered(cmds[..n], cmds[n].ch)
    ensures forall c :: Registered(cmds[..n], c) ==> Registered(cmds, c)
  {
    assert forall i :: 0 <= i < n ==> cmds[..n][i] == cmds[i];
  }

  /** What single registration makes of the counts: a window or nothing, on one topic, and closed for good. */
  lemma {:induction false} OnceMeansWindow(cmds: seq<Command>, c: Chan)
    requires RegisteredOnce(cmds)
    ensures forall topic :: Open(cmds, c, topic) == if InWindow(cmds, c, topic) then 1 else 0
    ensures forall topic, other :: Open(cmds, c, topic) > 0 && Open(cmds, c, other) > 0 ==> topic == other
    ensures forall topic :: Open(cmds, c, topic) > 0 ==> Registered(cmds, c) && !Shut(cmds, c)
    ensures Shut(cmds, c) ==> Registered(cmds, c)
  {
    if cmds != [] {
      var n := |cmds| - 1;
      RegisteredOnceBefore(cmds, n);
      OnceMeansWindow(cmds[..n], c);
      assert cmds == cmds[..n] + [cmds[n]];
      forall topic ensures Open(cmds, c, topic) == if InWindow(cmds, c, topic) then 1 else 0 {
        WindowAfter(cmds, c, topic);
        OpenAfter(cmds[..n], cmds[n], c, topic);
      }
      forall topic { OpenAfter(cmds[..n], cmds[n], c, topic); }
      ShutAfter(cmds[..n], cmds[n], c);
    }
  }

  /** Registered at most once each, no channel is sent to or closed after it was closed. */
  lemma NeverPanics(cmds: seq<Command>)
    requires RegisteredOnce(cmds)
    ensures !Run(cmds).panicked
  {
    PanicsExactlyWhen(cmds);
    forall n ensures !HitsClosed(cmds, n) {
      if 0 <= n < |cmds| {
        RegisteredOnceBefore(cmds, n);
        forall c { OnceMeansWindow(cmds[..n], c); }
      }
    }
  }

  /** Registered at most once each, a subscriber gets exactly the publications of its window, once each and in order. */
  lemma ReceivesExactlyItsWindow(cmds: seq<Command>, c: Chan)
    requires RegisteredOnce(cmds)
    ensures forall n: nat :: n in DeliveredAt(cmds, c) <==>
              n < |cmds| && cmds[n].Publish? && InWindow(cmds[..n], c, cmds[n].publication.topic)
    ensures forall k, l :: 0 <= k < l < |DeliveredAt(cmds, c)| ==> DeliveredAt(cmds, c)[k] < DeliveredAt(cmds, c)[l]
    ensures Sound(cmds, DeliveredAt(cmds, c))
    ensures Inbox(Run(cmds).inbox, c) == PublicationsAt(cmds, DeliveredAt(cmds, c))
    ensures var inbox, at := Inbox(Run(cmds).inbox, c), DeliveredAt(cmds, c);
            |inbox| == |at| && forall k :: 0 <= k < |at| ==>
              && inbox[k].topic == cmds[at[k]].publication.topic && inbox[k].content == cmds[at[k]].publication.content
              && !inbox[k].hasReplyChannel && !inbox[k].replied && !inbox[k].timedOut
  {
    NeverPanics(cmds);
    ReceivesWhileRunning(cmds, c);
    DeliveredAtIsExact(cmds, c);
    var at := DeliveredAt(cmds, c);
    forall n: nat | n < |cmds|
      ensures Times(cmds, c, n) ==
              if cmds[n].Publish? && InWindow(cmds[..n], c, cmds[n].publication.topic) then 1 else 0
    {
      RegisteredOnceBefore(cmds, n);
      OnceMeansWindow(cmds[..n], c);
    }
    assert forall n: nat :: n in at <==> CountOf(at, n) > 0;
    forall k, l | 0 <= k < l < |at| ensures at[k] != at[l] {
      if at[k] == at[l] { TwiceCounts(at, k, l); }
    }
  }

  lemma TwiceCounts(s: seq<nat>, k: nat, l: nat)
    requires k < l < |s| && s[k] == s[l]
    ensures CountOf(s, s[k]) >= 2
  {
    assert s == s[..l] + [s[l]] + s[l + 1..];
    assert s[..l][k] == s[k];
  }

  /** A channel registered twice and unregistered once: the next publication is sent to a closed channel. */
  lemma DoubleRegistrationPanics(c: Chan, p: Publication)
    ensures Run([] + [Register(c, p.topic)] + [Register(c, p.topic)] + [Unregister(c, p.topic)] + [Publish(p)]).panicked
  {
    var t := p.topic;
    var two := [] + [Register(c, t)] + [Register(c, t)];
    OpenAfter([], Register(c, t), c, t);
    OpenAfter([] + [Register(c, t)], Register(c, t), c, t);
    OpenAfter(two, Unregister(c, t), c, t);
    ShutAfter(two, Unregister(c, t), c);
    var three := two + [Unregister(c, t)];
    assert Touches(Publish(p), c, t) && Open(three, c, t) == 1 && Shut(three, c);
    HitsAfter(three, Publish(p));
    PanicsExactlyWhen(three + [Publish(p)]);
  }

  // ---------------------------------------------------------------- the broker object

  class LocalPubSubClient {
    var subscribers: map<string, seq<Chan>>
    var inbox: map<Chan, seq<Publication>>
    var closed: set<Chan>
    var stopped: bool
    var panicked: bool

    ghost function View(): Broker
      reads this
    {
      Broker(subscribers, inbox, closed, stopped, panicked)
    }

    constructor ()
      ensures View() == NewBroker
    {
      subscribers, inbox, closed, stopped, panicked := map[], map[], {}, false, false;
    }

    method SubscribersOf(topic: string) returns (subs: seq<Chan>)
      ensures subs == Subscribers(View(), topic)
    {
      subs := if topic in subscribers then subscribers[topic] else [];
    }

    method HandleRegister(ch: Chan, topic: string)
      requires !stopped && !panicked
      modifies this
      ensures View() == After(old(View()), Register(ch, topic))
    {
      if topic !in subscribers {
        subscribers := subscribers[topic := []];
      }
      subscribers := subscribers[topic := subscribers[topic] + [ch]];
    }

    /** Looks for the channel and cuts its first occurrence out. */
    method HandleUnregister(ch: Chan, topic: string)
      requires !stopped && !panicked
      modifies this
      ensures View() == After(old(View()), Unregister(ch, topic))
    {
      var subs := SubscribersOf(topic);
      var i := 0;
      while i < |subs| && subs[i] != ch
        invariant 0 <= i <= |subs| && ch !in subs[..i]
      {
        i := i + 1;
      }
      FirstIndexIs(subs, ch, i);
      if i < |subs| {
        subscribers := subscribers[topic := subs[..i] + subs[i + 1..]];
        panicked := ch in closed;
        closed := closed + {ch};
      }
    }

    /** One send per subscriber; all are waited for before the loop goes on. */
    method HandlePublish(p: Publication)
      requires !stopped && !panicked
      modifies this
      ensures View() == After(old(View()), Publish(p))
    {
      var subs := SubscribersOf(p.topic);
      if exists c :: c in subs && c in closed {
        panicked := true;
        return;
      }
      for i := 0 to |subs|
        invariant View() == old(View()).(inbox := Deliver(old(inbox), subs[..i], Duplicate(p)))
      {
        assert subs[..i + 1][..i] == subs[..i];
        inbox := inbox[subs[i] := Inbox(inbox, subs[i]) + [Duplicate(p)]];
      }
      assert subs[..|subs|] == subs;
    }

    /** The command loop of a new broker. */
    method Listen(commands: seq<Command>)
      requires View() == NewBroker
      modifies this
      ensures View() == Run(commands)
    {
      for i := 0 to |commands|
        invariant View() == Run(commands[..i])
      {
        assert commands[..i + 1][..i] == commands[..i];
        if !stopped && !panicked {
          match commands[i] {
            case Register(ch, topic) => HandleRegister(ch, topic);
            case Unregister(ch, topic) => HandleUnregister(ch, topic);
            case Publish(p) => HandlePublish(p);
            case Stop =>
              subscribers := map[];
              stopped := true;
          }
        }
      }
      assert commands[..|commands|] == commands;
    }
  }

  lemma FirstIndexIs(subs: seq<Chan>, c: Chan, i: nat)
    requires i <= |subs| && c !in subs[..i] && (i < |subs| ==> subs[i] == c)
    ensures FirstIndex(subs, c) == i
  {
    var n := FirstIndex(subs, c);
    assert forall k :: 0 <= k < n ==> subs[..n][k] == subs[k];
    assert forall k :: 0 <= k < i ==> subs[..i][k] == subs[k];
  }
}

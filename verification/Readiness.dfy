/**
  When the upstreamer reports that the services it requires are up: the `ready`
  channel of `listenServices` (gateway/upstreamer/push/upstreamer.go).
*/
module Readiness {
  import opened Wrappers

  /** `seen` is the map of required services; `closes` counts how often the `ready` channel was closed. */
  datatype Waiter = Waiter(required: seq<string>, seen: map<string, bool>, readyCount: int, notified: bool, closes: nat)

  function Start(required: seq<string>): Waiter {
    Waiter(required, map name | name in required :: false, 0, |required| == 0, if |required| == 0 then 1 else 0)
  }

  /** The first hello of a required name is counted. */
  function Ticked(w: Waiter, name: string): Waiter {
    if name in w.seen && !w.seen[name] then w.(seen := w.seen[name := true], readyCount := w.readyCount + 1) else w
  }

  function AfterHello(w: Waiter, name: string): Waiter {
    if |w.required| == 0 || w.notified then w
    else
      var w1 := Ticked(w, name);
      if w1.readyCount == |w1.required| then w1.(notified := true, closes := w1.closes + 1) else w1
  }

  /** Goodbyes do not reach the waiter, so a run is the names of the hellos. */
  function Run(required: seq<string>, hellos: seq<string>): Waiter {
    if hellos == [] then Start(required) else AfterHello(Run(required, hellos[..|hellos| - 1]), hellos[|hellos| - 1])
  }

  predicate Distinct(names: seq<string>) {
    forall i, j :: 0 <= i < j < |names| ==> names[i] != names[j]
  }

  predicate AllSeen(required: seq<string>, hellos: seq<string>) {
    forall name :: name in required ==> name in hellos
  }

  lemma {:induction false} NamesAtMost(s: seq<string>)
    ensures |ElementsOf(s)| <= |s|
    ensures |ElementsOf(s)| == |s| <==> Distinct(s)
  {
    if s != [] {
      var n := |s| - 1;
      NamesAtMost(s[..n]);
      assert s == s[..n] + [s[n]];
      assert ElementsOf(s) == ElementsOf(s[..n]) + {s[n]};
      assert Distinct(s) <==> Distinct(s[..n]) && s[n] !in ElementsOf(s[..n]) by {
        assert forall i :: 0 <= i < n ==> s[..n][i] == s[i];
      }
    }
  }

  ghost predicate Inv(required: seq<string>, hellos: seq<string>, w: Waiter) {
    && w.required == required && w.seen.Keys == ElementsOf(required)
    && w.closes == (if w.notified then 1 else 0)
    && (w.notified <==> Distinct(required) && AllSeen(required, hellos))
    && (!w.notified ==> Counting(required, hellos, w))
  }

  /** The counter reaches the number of required entries exactly when they are distinct and all seen. */
  lemma CountReaches(required: seq<string>, hellos: seq<string>)
    ensures |ElementsOf(required) * ElementsOf(hellos)| == |required| <==>
            Distinct(required) && AllSeen(required, hellos)
  {
    var seen := ElementsOf(required) * ElementsOf(hellos);
    NamesAtMost(required);
    SubsetSize(seen, ElementsOf(required));
    assert AllSeen(required, hellos) <==> seen == ElementsOf(required) by {
      assert forall name :: name in required <==> name in ElementsOf(required);
      assert forall name :: name in hellos <==> name in ElementsOf(hellos);
    }
  }

  /** One more hello raises the number of required names seen exactly when it is the first of a required name. */
  lemma OneMoreName(required: seq<string>, hellos: seq<string>, name: string)
    ensures |ElementsOf(required) * ElementsOf(hellos + [name])| ==
            |ElementsOf(required) * ElementsOf(hellos)| + (if name in required && name !in hellos then 1 else 0)
  {
    var before, after := ElementsOf(required) * ElementsOf(hellos), ElementsOf(required) * ElementsOf(hellos + [name]);
    assert ElementsOf(hellos + [name]) == ElementsOf(hellos) + {name};
    assert after == if name in required && name !in hellos then before + {name} else before;
  }

  /** The bookkeeping while not all names have been seen. */
  ghost predicate Counting(required: seq<string>, hellos: seq<string>, w: Waiter) {
    && w.required == required && w.seen.Keys == ElementsOf(required)
    && (forall name :: name in required ==> (w.seen[name] <==> name in hellos))
    && w.readyCount == |ElementsOf(required) * ElementsOf(hellos)|
  }

  lemma CountingStep(required: seq<string>, hellos: seq<string>, w: Waiter, name: string) returns (w1: Waiter)
    requires Counting(required, hellos, w)
    ensures w1 == Ticked(w, name)
    ensures Counting(required, hellos + [name], w1)
  {
    var longer := hellos + [name];
    w1 := Ticked(w, name);
    assert name in w.seen <==> name in required;
    assert w1.seen.Keys == w.seen.Keys;
    forall x | x in required ensures w1.seen[x] <==> x in longer {
      assert x in ElementsOf(required);
    }
    OneMoreName(required, hellos, name);
  }

  lemma StepKeepsInv(required: seq<string>, hellos: seq<string>, w: Waiter, name: string)
    requires Inv(required, hellos, w)
    ensures Inv(required, hellos + [name], AfterHello(w, name))
  {
    if w.notified {
      assert forall x :: x in hellos ==> x in hellos + [name];
    } else {
      assert Counting(required, hellos, w);
      var w1 := CountingStep(required, hellos, w, name);
      CountReaches(required, hellos + [name]);
    }
  }

  lemma {:induction false} InvHolds(required: seq<string>, hellos: seq<string>)
    ensures Inv(required, hellos, Run(required, hellos))
  {
    if hellos == [] {
      CountReaches(required, hellos);
      assert ElementsOf(required) * ElementsOf(hellos) == {};
    } else {
      var n := |hellos| - 1;
      InvHolds(required, hellos[..n]);
      StepKeepsInv(required, hellos[..n], Run(required, hellos[..n]), hellos[n]);
      assert hellos == hellos[..n] + [hellos[n]];
    }
  }

  /**
    The channel is closed at most once, and it is closed exactly from the hello
    that completes the required names on; a required name listed twice keeps it
    open for ever.
  */
  lemma ReadyExactlyWhen(required: seq<string>, hellos: seq<string>)
    ensures Run(required, hellos).closes <= 1
    ensures Run(required, hellos).closes == 1 <==> Distinct(required) && AllSeen(required, hellos)
  {
    InvHolds(required, hellos);
  }

  /** For one: the list of `a` and `a`, whatever is heard. */
  lemma RepeatedNameNeverReady(hellos: seq<string>)
    ensures Run(["a", "a"], hellos).closes == 0
  {
    ReadyExactlyWhen(["a", "a"], hellos);
    assert ["a", "a"][0] == ["a", "a"][1];
  }

  /** Once closed, closed: later hellos change nothing. */
  lemma {:induction false} ReadyStays(required: seq<string>, hellos: seq<string>, more: seq<string>)
    requires Run(required, hellos).closes == 1
    ensures Run(required, hellos + more).closes == 1
  {
    ReadyExactlyWhen(required, hellos);
    ReadyExactlyWhen(required, hellos + more);
  }

  /** The part of the service listener that watches the required services. */
  class ReadyWatch {
    const requiredServices: seq<string>
    var requiredSeen: map<string, bool>
    var requiredReady: int
    var requiredNotifSent: bool
    /** How often the `ready` channel was closed. */
    var readyCloses: nat
    /** The names of all hellos so far. */
    ghost var history: seq<string>

    ghost function View(): Waiter
      reads this
    {
      Waiter(requiredServices, requiredSeen, requiredReady, requiredNotifSent, readyCloses)
    }

    ghost predicate Valid()
      reads this
    {
      View() == Run(requiredServices, history)
    }

    constructor (required: seq<string>)
      ensures Valid() && requiredServices == required && history == []
      ensures readyCloses == if required == [] then 1 else 0
    {
      requiredServices := required;
      requiredReady, requiredNotifSent, readyCloses, history := 0, false, 0, [];
      requiredSeen := map[];
      new;
      for i := 0 to |required|
        invariant requiredSeen == map name | name in required[..i] :: false
        invariant requiredReady == 0 && !requiredNotifSent && readyCloses == 0 && history == []
      {
        requiredSeen := requiredSeen[required[i] := false];
      }
      assert required[..|required|] == required;
      if |required| == 0 {
        requiredNotifSent := true;
        readyCloses := 1;
      }
    }

    /** After every hello: closed at most once, and closed exactly when the required names are distinct and all seen. */
    method OnHello(name: string)
      requires Valid()
      modifies this
      ensures Valid() && history == old(history) + [name]
      ensures readyCloses <= 1
      ensures readyCloses == 1 <==> Distinct(requiredServices) && AllSeen(requiredServices, history)
    {
      ghost var before := View();
      history := history + [name];
      assert history[..|history| - 1] == old(history);
      ReadyExactlyWhen(requiredServices, history);
      if |requiredServices| > 0 && !requiredNotifSent {
        if name in requiredSeen && !requiredSeen[name] {
          requiredSeen := requiredSeen[name := true];
          requiredReady := requiredReady + 1;
        }
        if requiredReady == |requiredServices| {
          requiredNotifSent := true;
          readyCloses := readyCloses + 1;
        }
      }
      assert View() == AfterHello(before, name);
    }
  }
}

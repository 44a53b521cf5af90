/**
  How `Upstream` picks two candidates and draws one of them
  (gateway/upstreamer/push/upstreamer.go, gateway/upstreamer/push/utils.go).
  Weights are reals; the randomizer is any sequence of valid swaps and any
  draw in range.
*/
module Selection {
  import opened Wrappers

  // ---------------------------------------------------------------- two candidates

  predicate IsPermutation(s: seq<int>) {
    (forall i :: 0 <= i < |s| ==> 0 <= s[i] < |s|) && forall i, j :: 0 <= i < j < |s| ==> s[i] != s[j]
  }

  /** Fills the indices, shuffles them by whatever swaps, and takes the first two. */
  method Pick(length: int) returns (n1: int, n2: int)
    requires length >= 2
    ensures 0 <= n1 < length && 0 <= n2 < length && n1 != n2
  {
    var idxs := new int[length];
    for i := 0 to length
      invariant forall k :: 0 <= k < i ==> idxs[k] == k
    {
      idxs[i] := i;
    }
    var swaps: nat := *;
    while swaps > 0
      invariant IsPermutation(idxs[..])
    {
      var i, j := *, *;
      if 0 <= i < length && 0 <= j < length {
        idxs[i], idxs[j] := idxs[j], idxs[i];
      }
      swaps := swaps - 1;
    }
    n1, n2 := idxs[..][0], idxs[..][1];
  }

  // ---------------------------------------------------------------- weights

  datatype Weights = Weights(first: real, second: real)

  /** Both latencies when both are known and not zero, else both loads. */
  function WeightsOf(latency1: Option<real>, latency2: Option<real>, load1: real, load2: real): Weights {
    var w1 := if latency1.Some? then latency1.value else 0.0;
    var w2 := if latency2.Some? then latency2.value else 0.0;
    if w1 == 0.0 || w2 == 0.0 then Weights(load1, load2) else Weights(w1, w2)
  }

  /** A latency is never weighed against a load. */
  lemma LikeIsWeighedWithLike(latency1: Option<real>, latency2: Option<real>, load1: real, load2: real)
    ensures var w := WeightsOf(latency1, latency2, load1, load2);
            w == Weights(load1, load2) || (Some(w.first) == latency1 && Some(w.second) == latency2)
  {
  }

  /** Latencies are the weights when both are known and not zero, each of its own candidate; else the loads are. */
  lemma LatenciesWeighWhenBothKnown(latency1: Option<real>, latency2: Option<real>, load1: real, load2: real)
    ensures latency1.Some? && latency2.Some? && latency1.value != 0.0 && latency2.value != 0.0 ==>
              WeightsOf(latency1, latency2, load1, load2) == Weights(latency1.value, latency2.value)
    ensures latency1.None? || latency2.None? || latency1.value == 0.0 || latency2.value == 0.0 ==>
              WeightsOf(latency1, latency2, load1, load2) == Weights(load1, load2)
  {
  }

  // ---------------------------------------------------------------- the draw

  /** Conversion to an integer drops the fraction. */
  function Truncate(x: real): int {
    if x >= 0.0 then x.Floor else -((-x).Floor)
  }

  /** The bound given to the randomizer for weights of sum `total`; it panics on a bound that is not positive. */
  function DrawBound(total: real): int { Truncate(total) + 1 }

  /** The bound is positive exactly on sums above minus one, so always for weights that are not negative. */
  lemma DrawBoundPositiveExactlyWhen(total: real)
    ensures DrawBound(total) > 0 <==> total > -1.0
  {
  }

  /** With `light` the smaller weight, this draw tries the heavier candidate first. */
  predicate HeavierFirst(light: real, draw: int) { draw as real <= light }

  predicate IsDraw(d: int, bound: int) { 0 <= d < bound }

  /** What the randomizer may answer for a bound. */
  ghost function Draws(bound: int): set<int> { set d | 0 <= d < bound && IsDraw(d, bound) }

  ghost function HeavierDraws(light: real, bound: int): set<int> { set d | d in Draws(bound) && HeavierFirst(light, d) }

  lemma {:induction false} CountDraws(bound: nat)
    ensures |Draws(bound)| == bound
  {
    if bound == 0 {
      assert Draws(0) == {};
    } else {
      CountDraws(bound - 1);
      assert forall d :: d in Draws(bound) <==> IsDraw(d, bound);
      assert Draws(bound) == Draws(bound - 1) + {bound - 1};
    }
  }

  /** The heavier candidate goes first on exactly floor(a) + 1 of the floor(a + b) + 1 draws. */
  lemma HeavierShare(a: real, b: real)
    requires 0.0 <= a <= b
    ensures |Draws(DrawBound(a + b))| == (a + b).Floor + 1
    ensures |HeavierDraws(a, DrawBound(a + b))| == a.Floor + 1
  {
    assert a.Floor <= (a + b).Floor;
    CountDraws((a + b).Floor + 1);
    CountDraws(a.Floor + 1);
    forall d ensures HeavierFirst(a, d) <==> d <= a.Floor {
    }
    assert HeavierDraws(a, DrawBound(a + b)) == Draws(a.Floor + 1);
  }

  /**
    The lighter candidate goes first at least as often exactly when floor(a + b) > 2 floor(a), as it
    does for b >= a + 1.
  */
  lemma LighterFirstAtLeastAsOftenExactlyWhen(a: real, b: real)
    requires 0.0 <= a <= b
    ensures var heavier := |HeavierDraws(a, DrawBound(a + b))|;
            |Draws(DrawBound(a + b))| - heavier >= heavier <==> (a + b).Floor > 2 * a.Floor
    ensures b >= a + 1.0 ==> (a + b).Floor > 2 * a.Floor
  {
    HeavierShare(a, b);
    assert b >= a + 1.0 ==> a + b >= (2 * a.Floor + 1) as real;
  }

  /** Two idle candidates are not drawn between: the one ranked heavier always goes first. */
  lemma IdleCandidatesAreNotBalanced()
    ensures HeavierDraws(0.0, DrawBound(0.0)) == Draws(DrawBound(0.0)) == {0}
  {
  }
}

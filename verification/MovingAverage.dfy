/**
  The moving average of response times (gateway/upstreamer/push/movingaverage.go)
  and the per-address book of averages fed by `CollectLatency`
  (gateway/upstreamer/push/upstreamer.go). Samples are reals.
*/
module Latency {
  import opened Wrappers

  ghost function Sum(s: seq<real>): real {
    if s == [] then 0.0 else Sum(s[..|s| - 1]) + s[|s| - 1]
  }

  lemma {:induction false} SumOfConcat(a: seq<real>, b: seq<real>)
    ensures Sum(a + b) == Sum(a) + Sum(b)
  {
    if b == [] {
      assert a + b == a;
    } else {
      assert (a + b)[..|a + b| - 1] == a + b[..|b| - 1];
      SumOfConcat(a, b[..|b| - 1]);
    }
  }

  /** The last `k` samples of a history. */
  function LastOf(history: seq<real>, k: nat): seq<real>
    requires k <= |history|
  {
    history[|history| - k..]
  }

  /** The specification: no mean before `k` samples, then the mean of the last `k`. */
  ghost function Mean(history: seq<real>, k: nat): Option<real>
    requires k > 0
  {
    if |history| < k then None else Some(Sum(LastOf(history, k)) / k as real)
  }

  /** What the sum is: nothing for nothing, a sample for itself, and additive. */
  lemma SumOfOne(x: real)
    ensures Sum([]) == 0.0 && Sum([x]) == x
  {
    assert [x][..0] == [];
  }

  lemma {:induction false} SumBetween(s: seq<real>, lo: real, hi: real)
    requires forall x :: x in s ==> lo <= x <= hi
    ensures |s| as real * lo <= Sum(s) <= |s| as real * hi
  {
    if s != [] {
      var front := s[..|s| - 1];
      assert s[|s| - 1] in s && forall x :: x in front ==> x in s;
      SumBetween(front, lo, hi);
      assert |s| as real == |front| as real + 1.0;
      assert |s| as real * lo == |front| as real * lo + lo && |s| as real * hi == |front| as real * hi + hi;
    }
  }

  /** The mean lies between the least and the greatest of the last samples; of equal samples it is that sample. */
  lemma MeanBetween(history: seq<real>, k: nat, lo: real, hi: real)
    requires 0 < k <= |history| && forall x :: x in LastOf(history, k) ==> lo <= x <= hi
    ensures Mean(history, k).Some? && lo <= Mean(history, k).value <= hi
  {
    var last := LastOf(history, k);
    SumBetween(last, lo, hi);
    var mean := Sum(last) / k as real;
    assert mean * k as real == Sum(last);
    assert (mean - lo) * k as real >= 0.0 && (hi - mean) * k as real >= 0.0;
  }

  /** Samples older than the last `k` do not count. */
  lemma {:induction false} OlderDoNotCount(older: seq<real>, last: seq<real>)
    requires last != []
    ensures Mean(older + last, |last|) == Mean(last, |last|)
  {
    assert LastOf(older + last, |last|) == last && LastOf(last, |last|) == last;
  }

  /** The last `k` all do: their mean times `k` is their sum. */
  lemma {:induction false} MeanTimesCount(last: seq<real>)
    requires last != []
    ensures Mean(last, |last|).Some? && Mean(last, |last|).value * |last| as real == Sum(last)
  {
    assert LastOf(last, |last|) == last;
    PartTimes(Sum(last), |last| as real);
  }

  lemma PartTimes(x: real, k: real)
    requires k != 0.0
    ensures x / k * k == x
  {
  }

  /** The ring cells hold the window that ends with the latest sample, split at the next cell to write. */
  predicate Window(cells: seq<real>, nextIdx: int, complete: bool, history: seq<real>) {
    && 0 <= nextIdx < |cells|
    && if complete then
         && |cells| <= |history|
         && cells[..nextIdx] == LastOf(history, nextIdx)
         && cells[nextIdx..] == LastOf(history, |cells|)[..|cells| - nextIdx]
       else
         cells[..nextIdx] == history
  }

  lemma WindowAdvances(cells: seq<real>, nextIdx: int, complete: bool, history: seq<real>, value: real)
    requires Window(cells, nextIdx, complete, history) && nextIdx + 1 < |cells|
    ensures Window(cells[nextIdx := value], nextIdx + 1, complete, history + [value])
  {
    var k, n := |cells|, nextIdx + 1;
    var next := cells[nextIdx := value];
    var longer := history + [value];
    assert next[..n] == cells[..nextIdx] + [value];
    if complete {
      assert next[n..] == cells[nextIdx..][1..];
      assert LastOf(longer, n) == LastOf(history, nextIdx) + [value];
      assert LastOf(longer, k)[..k - n] == LastOf(history, k)[..k - nextIdx][1..];
    }
  }

  lemma WindowWraps(cells: seq<real>, nextIdx: int, complete: bool, history: seq<real>, value: real)
    requires Window(cells, nextIdx, complete, history) && nextIdx + 1 == |cells|
    ensures Window(cells[nextIdx := value], 0, true, history + [value])
  {
    var next := cells[nextIdx := value];
    var longer := history + [value];
    var last := LastOf(longer, |cells|);
    assert LastOf(history, nextIdx) == cells[..nextIdx];
    assert last == LastOf(history, nextIdx) + [value];
    assert next == cells[..nextIdx] + [value] == last;
    assert next[..0] == LastOf(longer, 0);
    assert next[0..] == next && last[..|cells|] == last;
  }

  lemma Wrap(i: int, k: int)
    requires 0 < i <= k
    ensures i % k == if i < k then i else 0
  {
  }

  /** Overwriting the next cell and stepping round the ring moves the window by one sample. */
  lemma WindowMoves(cells: seq<real>, nextIdx: int, complete: bool, history: seq<real>, value: real)
    requires Window(cells, nextIdx, complete, history)
    ensures var n := (nextIdx + 1) % |cells|;
            Window(cells[nextIdx := value], n, complete || n == 0, history + [value])
  {
    Wrap(nextIdx + 1, |cells|);
    if nextIdx + 1 < |cells| {
      WindowAdvances(cells, nextIdx, complete, history, value);
    } else {
      WindowWraps(cells, nextIdx, complete, history, value);
    }
  }

  lemma LastSplits(history: seq<real>, k: nat, n: nat)
    requires n <= k <= |history|
    ensures LastOf(history, k) == LastOf(history, k)[..k - n] + LastOf(history, n)
  {
  }

  /** The order of the cells does not matter to their sum. */
  lemma WindowSum(cells: seq<real>, nextIdx: int, history: seq<real>)
    requires Window(cells, nextIdx, true, history)
    ensures Sum(cells) == Sum(LastOf(history, |cells|))
  {
    var newer, older := cells[..nextIdx], cells[nextIdx..];
    assert cells == newer + older;
    SumOfConcat(newer, older);
    LastSplits(history, |cells|, nextIdx);
    SumOfConcat(older, newer);
  }

  /** A struct passed by value, whose ring is a slice and therefore shared by its copies. */
  datatype MovingAverage = MovingAverage(ring: array<real>, sampleSize: int, nextIdx: int, samplingComplete: bool)

  /** `m` is what `sampleSize`-sized averaging makes of `history`. */
  ghost predicate Averages(m: MovingAverage, history: seq<real>)
    reads m.ring
  {
    && 0 < m.sampleSize == m.ring.Length
    && Window(m.ring[..], m.nextIdx, m.samplingComplete, history)
  }

  method NewMovingAverage(sampleSize: int) returns (m: MovingAverage)
    requires sampleSize > 0
    ensures fresh(m.ring) && m.sampleSize == sampleSize
    ensures Averages(m, [])
  {
    var ring := new real[sampleSize](_ => 0.0);
    m := MovingAverage(ring, sampleSize, 0, false);
  }

  /** Fails exactly on a short history; else the mean of the last samples. */
  method Average(m: MovingAverage, ghost history: seq<real>) returns (mean: Option<real>)
    requires Averages(m, history)
    ensures mean == Mean(history, m.sampleSize)
  {
    if !m.samplingComplete {
      return None;
    }
    var sum := 0.0;
    for i := 0 to m.ring.Length
      invariant sum == Sum(m.ring[..i])
    {
      assert m.ring[..i + 1][..i] == m.ring[..i];
      sum := sum + m.ring[i];
    }
    assert m.ring[..m.ring.Length] == m.ring[..];
    WindowSum(m.ring[..], m.nextIdx, history);
    mean := Some(sum / m.sampleSize as real);
  }

  /** Works on a fresh ring: no earlier value of the average changes. */
  method Append(m: MovingAverage, value: real, ghost history: seq<real>) returns (nm: MovingAverage)
    requires Averages(m, history)
    ensures fresh(nm.ring) && nm.sampleSize == m.sampleSize
    ensures Averages(nm, history + [value])
  {
    nm := NewMovingAverage(m.sampleSize);
    for i := 0 to m.ring.Length
      invariant nm.ring[..i] == m.ring[..i]
    {
      nm.ring[i] := m.ring[i];
    }
    nm.ring[m.nextIdx] := value;
    assert nm.ring[..] == m.ring[..][m.nextIdx := value];
    WindowMoves(m.ring[..], m.nextIdx, m.samplingComplete, history, value);
    var nextIdx := (m.nextIdx + 1) % nm.sampleSize;
    nm := nm.(nextIdx := nextIdx, samplingComplete := m.samplingComplete || nextIdx == 0);
  }

  /** The `latencies` map of the upstreamer. */
  class LatencyBook {
    const sampleSize: int
    var averages: map<string, MovingAverage>
    /** Every sample collected per address since it was last deleted. */
    ghost var samples: map<string, seq<real>>

    ghost predicate Valid()
      reads this, set a | a in averages :: averages[a].ring
    {
      && sampleSize > 0
      && averages.Keys == samples.Keys
      && forall a :: a in averages ==> averages[a].sampleSize == sampleSize && Averages(averages[a], samples[a])
    }

    ghost function SamplesOf(address: string): seq<real>
      reads this
    {
      if address in samples then samples[address] else []
    }

    constructor (sampleSize: int)
      requires sampleSize > 0
      ensures Valid() && samples == map[] && this.sampleSize == sampleSize
    {
      this.sampleSize := sampleSize;
      averages := map[];
      samples := map[];
    }

    method Store(address: string, m: MovingAverage, ghost history: seq<real>)
      requires Valid() && m.sampleSize == sampleSize && Averages(m, history)
      modifies this
      ensures Valid()
      ensures averages == old(averages)[address := m] && samples == old(samples)[address := history]
    {
      averages := averages[address := m];
      samples := samples[address := history];
    }

    /** `CollectLatency`: an unknown address gets a new average first, then the call starts over. */
    method Collect(address: string, micros: real)
      requires Valid()
      modifies this
      ensures Valid()
      ensures samples == old(samples)[address := old(SamplesOf(address)) + [micros]]
      decreases if address in averages then 0 else 1
    {
      if address in averages {
        var m := Append(averages[address], micros, samples[address]);
        Store(address, m, samples[address] + [micros]);
      } else {
        var m := NewMovingAverage(sampleSize);
        Store(address, m, []);
        Collect(address, micros);
      }
    }

    method Delete(address: string)
      requires Valid()
      modifies this
      ensures Valid()
      ensures samples == old(samples) - {address}
    {
      averages := averages - {address};
      samples := samples - {address};
    }

    method DeleteAll(addresses: seq<string>)
      requires Valid()
      modifies this
      ensures Valid()
      ensures samples == old(samples) - ElementsOf(addresses)
    {
      for i := 0 to |addresses|
        invariant Valid() && samples == old(samples) - ElementsOf(addresses[..i])
      {
        OneMoreElement(addresses, i);
        Delete(addresses[i]);
      }
      assert addresses[..|addresses|] == addresses;
    }

    /** The latency weight `Upstream` reads for an address, when there is one. */
    method Weight(address: string) returns (w: Option<real>)
      requires Valid()
      ensures w == Mean(SamplesOf(address), sampleSize)
    {
      w := None;
      if address in averages {
        w := Average(averages[address], samples[address]);
      }
    }
  }
}

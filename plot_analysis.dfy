/**
 * Speedup and efficiency helpers (src/plot_analysis.py). Plotting is not
 * part of this model. Times are exact `real`s.
 */
module PlotAnalysis {

  /** `[serial_time / t for t in parallel_times]`; a zero time raises ZeroDivisionError. */
  function ComputeSpeedup(serialTime: real, parallelTimes: seq<real>): (speedups: seq<real>)
    requires forall i :: 0 <= i < |parallelTimes| ==> parallelTimes[i] != 0.0
    ensures |speedups| == |parallelTimes|
  {
    if parallelTimes == [] then []
    else [serialTime / parallelTimes[0]] + ComputeSpeedup(serialTime, parallelTimes[1..])
  }

  /** Entry i is the serial time divided by the i-th measured time. */
  lemma {:induction false} SpeedupAt(serialTime: real, parallelTimes: seq<real>, i: nat)
    requires forall i :: 0 <= i < |parallelTimes| ==> parallelTimes[i] != 0.0
    requires i < |parallelTimes|
    ensures ComputeSpeedup(serialTime, parallelTimes)[i] == serialTime / parallelTimes[i]
  {
    if i != 0 {
      SpeedupAt(serialTime, parallelTimes[1..], i - 1);
    }
  }

  /**
   * `[s / w for s, w in zip(speedups, workers)]`: `zip` stops at the shorter
   * list, so only the paired worker counts must be non-zero.
   */
  function ComputeEfficiency(speedups: seq<real>, workers: seq<int>): (efficiency: seq<real>)
    requires forall i :: 0 <= i < |speedups| && i < |workers| ==> workers[i] != 0
    ensures |efficiency| == if |speedups| <= |workers| then |speedups| else |workers|
  {
    if speedups == [] || workers == [] then []
    else [speedups[0] / workers[0] as real] + ComputeEfficiency(speedups[1..], workers[1..])
  }

  /** Entry i is the i-th speedup divided by the i-th worker count. */
  lemma {:induction false} EfficiencyAt(speedups: seq<real>, workers: seq<int>, i: nat)
    requires forall i :: 0 <= i < |speedups| && i < |workers| ==> workers[i] != 0
    requires i < |speedups| && i < |workers|
    ensures ComputeEfficiency(speedups, workers)[i] == speedups[i] / workers[i] as real
  {
    if i != 0 {
      EfficiencyAt(speedups[1..], workers[1..], i - 1);
    }
  }

  /**
   * As composed per dataset in `plot_analysis`: efficiency i is the serial
   * time over the product of time i and worker count i.
   */
  lemma {:induction false} EfficiencyFromTimes(serialTime: real, times: seq<real>, workers: seq<int>, i: nat)
    requires forall k :: 0 <= k < |times| ==> times[k] != 0.0
    requires forall k :: 0 <= k < |times| && k < |workers| ==> workers[k] != 0
    requires i < |times| && i < |workers|
    ensures ComputeEfficiency(ComputeSpeedup(serialTime, times), workers)[i]
         == serialTime / (times[i] * (workers[i] as real))
  {
    SpeedupAt(serialTime, times, i);
    EfficiencyAt(ComputeSpeedup(serialTime, times), workers, i);
    var t, w := times[i], workers[i] as real;
    DivideTwice(serialTime, t, w);
    assert ComputeEfficiency(ComputeSpeedup(serialTime, times), workers)[i] == (serialTime / t) / w;
    assert (serialTime / t) / w == serialTime / (t * w);
    assert t * w == times[i] * (workers[i] as real);
    assert ComputeEfficiency(ComputeSpeedup(serialTime, times), workers)[i] == serialTime / (times[i] * (workers[i] as real));
  }

  /** Dividing by t and then by w is dividing by t * w. */
  lemma DivideTwice(a: real, t: real, w: real)
    requires t != 0.0 && w != 0.0
    ensures (a / t) / w == a / (t * w)
  {
    var q := (a / t) / w;
    assert q * w == a / t;
    assert (a / t) * t == a;
    assert q * (t * w) == (q * w) * t;
    assert (a / (t * w)) * (t * w) == a;
  }
}

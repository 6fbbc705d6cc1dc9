/**
 * Amdahl's-Law estimator (src/predicted_value.py).
 *
 * All arithmetic is exact over `real`; the program uses IEEE doubles, and
 * rounding is outside this model. Worker counts are Python `int`s.
 */
module PredictedValue {

  // ---------------------------------------------------------------------
  // Facts about real division used throughout
  // ---------------------------------------------------------------------

  lemma DivLe(a: real, b: real, c: real)
    requires b > 0.0
    ensures a / b <= c <==> a <= c * b
  {
    assert (a / b) * b == a;
  }

  lemma DivGe(a: real, b: real, c: real)
    requires b > 0.0
    ensures a / b >= c <==> a >= c * b
  {
    assert (a / b) * b == a;
  }

  /** For x > 1, `1 - 1/x` is positive, and it grows with x. */
  lemma OneMinusInverse(x: real, y: real)
    requires 1.0 < x <= y
    ensures 0.0 < 1.0 - 1.0 / x <= 1.0 - 1.0 / y
    ensures x < y ==> 1.0 - 1.0 / x < 1.0 - 1.0 / y
  {
    DivLe(1.0, y, 1.0 / x);
    assert (1.0 / x) * x == 1.0;
    assert (1.0 / y) * y == 1.0;
    DivGe(1.0, x, 1.0);
  }

  // ---------------------------------------------------------------------
  // estimate_parallel_fraction
  // ---------------------------------------------------------------------

  /** `max(0.0, min(p, 1.0))` */
  function Clamp01(p: real): (r: real)
    ensures 0.0 <= r <= 1.0
    ensures 0.0 <= p <= 1.0 ==> r == p
    ensures p > 1.0 ==> r == 1.0
    ensures p < 0.0 ==> r == 0.0
  {
    if p < 0.0 then 0.0 else if p > 1.0 then 1.0 else p
  }

  /**
   * Back-solves the parallel fraction P from one measured run. The only
   * division that can fail is `serialTime / parallelTime`; the other two are
   * reached only when the speedup exceeds 1 and workers exceeds 1.
   */
  function EstimateParallelFraction(serialTime: real, parallelTime: real, workers: int): (p: real)
    requires parallelTime != 0.0
    ensures 0.0 <= p <= 1.0
    // P is zero exactly when the run used at most one worker or showed no benefit
    ensures p == 0.0 <==> workers <= 1 || serialTime / parallelTime <= 1.0
  {
    var speedup := serialTime / parallelTime;
    if workers <= 1 || speedup <= 1.0 then 0.0
    else
      var num := 1.0 - 1.0 / speedup;
      var den := 1.0 - 1.0 / workers as real;
      OneMinusInverse(speedup, speedup);
      OneMinusInverse(workers as real, workers as real);
      DivLe(num, den, 0.0);
      Clamp01(num / den)
  }

  /** When 1 < speedup <= workers the clamp is inactive and P is the raw inverse. */
  lemma FitIsExact(serialTime: real, parallelTime: real, workers: int)
    requires parallelTime != 0.0 && workers > 1
    requires 1.0 < serialTime / parallelTime <= workers as real
    ensures EstimateParallelFraction(serialTime, parallelTime, workers)
         == (1.0 - 1.0 / (serialTime / parallelTime)) / (1.0 - 1.0 / workers as real)
  {
    var s, w := serialTime / parallelTime, workers as real;
    OneMinusInverse(s, w);
    DivLe(1.0 - 1.0 / s, 1.0 - 1.0 / w, 1.0);
    DivLe(1.0 - 1.0 / s, 1.0 - 1.0 / w, 0.0);
  }

  /** A speedup above the worker count is beyond what the law allows; P saturates at 1. */
  lemma FitSaturates(serialTime: real, parallelTime: real, workers: int)
    requires parallelTime != 0.0 && workers > 1
    requires serialTime / parallelTime > workers as real
    ensures EstimateParallelFraction(serialTime, parallelTime, workers) == 1.0
  {
    var s, w := serialTime / parallelTime, workers as real;
    OneMinusInverse(w, s);
    DivLe(1.0 - 1.0 / s, 1.0 - 1.0 / w, 1.0);
  }

  // ---------------------------------------------------------------------
  // amdahl_speedup, amdahl_execution_time, amdahl_efficiency
  // ---------------------------------------------------------------------

  /** The denominator of `amdahl_speedup`, `P + (1 - P) / workers`. */
  function SpeedupDenominator(p: real, workers: int): real
    requires workers != 0
  {
    p + (1.0 - p) / workers as real
  }

  /** The two divisions of `amdahl_speedup` do not raise ZeroDivisionError. */
  predicate SpeedupDefined(p: real, workers: int)
  {
    workers != 0 && SpeedupDenominator(p, workers) != 0.0
  }

  /**
   * The predicted speedup, as the program writes it: `1 / (P + (1 - P) / w)`.
   * Note that P sits where the textbook law puts the serial share 1 - P.
   */
  function AmdahlSpeedup(p: real, workers: int): (s: real)
    requires SpeedupDefined(p, workers)
    ensures s != 0.0
    ensures 0.0 <= p <= 1.0 && workers >= 1 ==> 1.0 <= s <= workers as real
    ensures p == 0.0 ==> s == workers as real
    ensures p == 1.0 ==> s == 1.0
  {
    SpeedupBounds(p, workers);
    1.0 / SpeedupDenominator(p, workers)
  }

  /** A fraction of a non-negative number lies between 0 and that number. */
  lemma ScaledFraction(p: real, x: real)
    requires 0.0 <= p <= 1.0 && x >= 0.0
    ensures 0.0 <= p * x <= x
  {
    assert (1.0 - p) * x >= 0.0;
  }

  lemma SpeedupBounds(p: real, workers: int)
    requires SpeedupDefined(p, workers)
    ensures 1.0 / SpeedupDenominator(p, workers) != 0.0
    ensures 0.0 <= p <= 1.0 && workers >= 1 ==>
              1.0 <= 1.0 / SpeedupDenominator(p, workers) <= workers as real
    ensures p == 0.0 ==> 1.0 / SpeedupDenominator(p, workers) == workers as real
  {
    var d := SpeedupDenominator(p, workers);
    var w := workers as real;
    assert (1.0 / d) * d == 1.0;
    if 0.0 <= p <= 1.0 && workers >= 1 {
      assert ((1.0 - p) / w) * w == 1.0 - p;
      assert d * w == 1.0 + p * (w - 1.0);
      ScaledFraction(p, w - 1.0);
      DivLe(1.0, d, w);
      DivGe(1.0, d, 1.0);
    }
    if p == 0.0 {
      assert d == 1.0 / w;
      assert (1.0 / w) * w == 1.0;
    }
  }

  /** The predicted time: the serial time scaled down by the predicted speedup. */
  function AmdahlExecutionTime(serialTime: real, speedup: real): (t: real)
    requires speedup != 0.0
    ensures t * speedup == serialTime
  {
    serialTime / speedup
  }

  /** The predicted efficiency: speedup per worker. */
  function AmdahlEfficiency(speedup: real, workers: int): (e: real)
    requires workers != 0
    ensures e * workers as real == speedup
    ensures workers >= 1 && 1.0 <= speedup <= workers as real ==> 1.0 / workers as real <= e <= 1.0
  {
    EfficiencyBounds(speedup, workers);
    speedup / workers as real
  }

  lemma EfficiencyBounds(speedup: real, workers: int)
    requires workers != 0
    ensures (speedup / workers as real) * workers as real == speedup
    ensures workers >= 1 && 1.0 <= speedup <= workers as real ==>
              1.0 / workers as real <= speedup / workers as real <= 1.0
  {
    var w := workers as real;
    if workers >= 1 {
      DivLe(speedup, w, 1.0);
      DivGe(speedup, w, 1.0 / w);
      assert (1.0 / w) * w == 1.0;
    }
  }

  // ---------------------------------------------------------------------
  // compute_amdahl_predictions
  // ---------------------------------------------------------------------

  /**
   * `measured_times.index(min(measured_times))`: the first position holding
   * the minimum. `min` of an empty list raises ValueError, hence the requires.
   */
  function FirstMinIndex(times: seq<real>): (i: nat)
    requires |times| > 0
    ensures i < |times|
    ensures forall j :: 0 <= j < |times| ==> times[i] <= times[j]
    ensures forall j :: 0 <= j < i ==> times[i] < times[j]
  {
    if |times| == 1 then 0
    else
      var k := FirstMinIndex(times[1..]) + 1;
      if times[0] <= times[k] then 0 else k
  }

  /**
   * The best run sits at the smallest worker count among all runs that reach
   * the minimum, provided the worker list is strictly ascending.
   */
  lemma BestRunHasFewestWorkers(workerList: seq<int>, measuredTimes: seq<real>, j: nat)
    requires |measuredTimes| > 0 && |measuredTimes| <= |workerList|
    requires forall a, b :: 0 <= a < b < |workerList| ==> workerList[a] < workerList[b]
    requires j < |measuredTimes| && measuredTimes[j] == measuredTimes[FirstMinIndex(measuredTimes)]
    ensures workerList[FirstMinIndex(measuredTimes)] <= workerList[j]
  {
  }

  /** The estimate of P the program derives from the best run. */
  function BestFraction(serialTime: real, workerList: seq<int>, measuredTimes: seq<real>): real
    requires |measuredTimes| > 0
    requires FirstMinIndex(measuredTimes) < |workerList|
    requires measuredTimes[FirstMinIndex(measuredTimes)] != 0.0
  {
    var b := FirstMinIndex(measuredTimes);
    EstimateParallelFraction(serialTime, measuredTimes[b], workerList[b])
  }

  /** The `results` dictionary: P and three prediction series, one entry per worker count. */
  datatype AmdahlResults = AmdahlResults(
    parallelFraction: real,
    speedup: seq<real>,
    executionTime: seq<real>,
    efficiency: seq<real>)

  /** Preconditions under which `compute_amdahl_predictions` raises nothing. */
  predicate PredictionsDefined(serialTime: real, workerList: seq<int>, measuredTimes: seq<real>)
  {
    && |measuredTimes| > 0
    && FirstMinIndex(measuredTimes) < |workerList|
    && measuredTimes[FirstMinIndex(measuredTimes)] != 0.0
    && forall i :: 0 <= i < |workerList| ==>
         SpeedupDefined(BestFraction(serialTime, workerList, measuredTimes), workerList[i])
  }

  /**
   * Picks the best observed run, fits P to it, and builds the three
   * prediction lists by appending one entry per worker count (printing is
   * not modelled).
   */
  method ComputeAmdahlPredictions(serialTime: real, workerList: seq<int>, measuredTimes: seq<real>)
    returns (results: AmdahlResults)
    requires PredictionsDefined(serialTime, workerList, measuredTimes)
    ensures results.parallelFraction == BestFraction(serialTime, workerList, measuredTimes)
    ensures 0.0 <= results.parallelFraction <= 1.0
    ensures |results.speedup| == |results.executionTime| == |results.efficiency| == |workerList|
    ensures forall i :: 0 <= i < |workerList| ==>
              && results.speedup[i] == AmdahlSpeedup(results.parallelFraction, workerList[i])
              && results.executionTime[i] == AmdahlExecutionTime(serialTime, results.speedup[i])
              && results.efficiency[i] == AmdahlEfficiency(results.speedup[i], workerList[i])
    // with real worker counts the predictions stay within the law's bounds
    ensures forall i :: 0 <= i < |workerList| && workerList[i] >= 1 ==>
              && 1.0 <= results.speedup[i] <= workerList[i] as real
              && 1.0 / workerList[i] as real <= results.efficiency[i] <= 1.0
  {
    var bestIndex := FirstMinIndex(measuredTimes);
    var bestWorkers := workerList[bestIndex];
    var bestTime := measuredTimes[bestIndex];
    var p := EstimateParallelFraction(serialTime, bestTime, bestWorkers);

    results := AmdahlResults(p, [], [], []);
    var n := 0;
    while n < |workerList|
      invariant 0 <= n <= |workerList|
      invariant results.parallelFraction == p
      invariant |results.speedup| == |results.executionTime| == |results.efficiency| == n
      invariant forall i :: 0 <= i < n ==>
                  && results.speedup[i] == AmdahlSpeedup(p, workerList[i])
                  && results.executionTime[i] == AmdahlExecutionTime(serialTime, results.speedup[i])
                  && results.efficiency[i] == AmdahlEfficiency(results.speedup[i], workerList[i])
    {
      var w := workerList[n];
      var s := AmdahlSpeedup(p, w);
      var t := AmdahlExecutionTime(serialTime, s);
      var e := AmdahlEfficiency(s, w);
      results := results.(
        executionTime := results.executionTime + [t],
        speedup := results.speedup + [s],
        efficiency := results.efficiency + [e]);
      n := n + 1;
    }
  }

  // ---------------------------------------------------------------------
  // The fit point and the textbook law
  // ---------------------------------------------------------------------

  /**
   * The fit inverts `1 / ((1 - P) + P / w)`, so the measured speedup is
   * recovered by the program's predictor only with 1 - P in place of P.
   */
  lemma {:induction false} FitRoundTripsWithSwappedFraction(serialTime: real, parallelTime: real, workers: int)
    requires parallelTime != 0.0 && workers > 1
    requires 1.0 < serialTime / parallelTime <= workers as real
    ensures SpeedupDefined(1.0 - EstimateParallelFraction(serialTime, parallelTime, workers), workers)
    ensures AmdahlSpeedup(1.0 - EstimateParallelFraction(serialTime, parallelTime, workers), workers)
         == serialTime / parallelTime
  {
    var s, w := serialTime / parallelTime, workers as real;
    var p := EstimateParallelFraction(serialTime, parallelTime, workers);
    FitIsExact(serialTime, parallelTime, workers);
    OneMinusInverse(w, w);
    OneMinusInverse(s, s);
    assert p * (1.0 - 1.0 / w) == 1.0 - 1.0 / s;
    assert SpeedupDenominator(1.0 - p, workers) == 1.0 / s by {
      assert (p / w) == p * (1.0 / w);
    }
    assert (1.0 / s) * s == 1.0;
    assert 1.0 / (1.0 / s) == s;
  }

  /**
   * With serial time 10, best time 2.5 at 8 workers (measured speedup 4),
   * the fit gives P = 6/7 but the program predicts a speedup of 8/7 at
   * 8 workers, not 4.
   */
  lemma FitPointMismatchExample()
    ensures EstimateParallelFraction(10.0, 2.5, 8) == 6.0 / 7.0
    ensures AmdahlSpeedup(6.0 / 7.0, 8) == 8.0 / 7.0
    ensures AmdahlSpeedup(6.0 / 7.0, 8) != 10.0 / 2.5
  {
    FitIsExact(10.0, 2.5, 8);
  }

  /**
   * With no observed benefit P is 0, and the program then predicts linear
   * speedup with efficiency 1 for every worker count rather than a flat curve.
   */
  lemma NoBenefitPredictsLinearSpeedup(serialTime: real, bestTime: real, bestWorkers: int, workers: int)
    requires bestTime != 0.0 && serialTime / bestTime <= 1.0 && workers >= 1
    ensures SpeedupDefined(EstimateParallelFraction(serialTime, bestTime, bestWorkers), workers)
    ensures AmdahlSpeedup(EstimateParallelFraction(serialTime, bestTime, bestWorkers), workers) == workers as real
    ensures AmdahlEfficiency(workers as real, workers) == 1.0
  {
    assert SpeedupDenominator(0.0, workers) == 1.0 / workers as real;
  }

  /** The textbook law `1 / ((1 - P) + P / w)`, which the fit inverts. */
  function StandardSpeedup(p: real, workers: int): (s: real)
    requires SpeedupDefined(1.0 - p, workers)
    ensures s == AmdahlSpeedup(1.0 - p, workers)
    ensures 0.0 <= p <= 1.0 && workers >= 1 ==> 1.0 <= s <= workers as real
    ensures p == 0.0 ==> s == 1.0
  {
    assert (1.0 - p) + (1.0 - (1.0 - p)) / workers as real == (1.0 - p) + p / workers as real;
    1.0 / ((1.0 - p) + p / workers as real)
  }

  /** Under the textbook law the fit point round-trips: the predicted speedup at the best run's worker count is the measured one. */
  lemma StandardSpeedupRoundTrip(serialTime: real, parallelTime: real, workers: int)
    requires parallelTime != 0.0 && workers > 1
    requires 1.0 < serialTime / parallelTime <= workers as real
    ensures SpeedupDefined(1.0 - EstimateParallelFraction(serialTime, parallelTime, workers), workers)
    ensures StandardSpeedup(EstimateParallelFraction(serialTime, parallelTime, workers), workers)
         == serialTime / parallelTime
  {
    FitRoundTripsWithSwappedFraction(serialTime, parallelTime, workers);
  }
}

/**
 * The benchmark driver `main` (src/main.py): the worker-count sweep, the
 * per-dataset loop, and the speedup and efficiency of every measured run.
 * The file system, `cpu_count()` and the wall clock are inputs.
 */
module Benchmark {
  import opened Pipeline
  import PlotAnalysis
  import PredictedValue

  // ---------------------------------------------------------------------
  // The worker-count sweep
  // ---------------------------------------------------------------------

  /** The worker counts main would like to try. */
  const CandidateWorkers: seq<int> := [2, 4, 8, 12, 16]

  /** `[w for w in ws if w <= max_cpu]` */
  function AtMost(ws: seq<int>, maxCpu: int): (kept: seq<int>)
    ensures |kept| <= |ws|
    ensures forall w :: w in kept <==> w in ws && w <= maxCpu
  {
    if ws == [] then []
    else (if ws[0] <= maxCpu then [ws[0]] else []) + AtMost(ws[1..], maxCpu)
  }

  predicate StrictlyAscending(ws: seq<int>)
  {
    forall a, b :: 0 <= a < b < |ws| ==> ws[a] < ws[b]
  }

  /** Filtering a concatenation filters each part: the kept counts stay in their listed order. */
  lemma {:induction false} AtMostAppend(a: seq<int>, b: seq<int>, maxCpu: int)
    ensures AtMost(a + b, maxCpu) == AtMost(a, maxCpu) + AtMost(b, maxCpu)
  {
    if a != [] {
      assert (a + b)[0] == a[0];
      assert (a + b)[1..] == a[1..] + b;
      AtMostAppend(a[1..], b, maxCpu);
    } else {
      assert a + b == b;
    }
  }

  /** Filtering an ascending list keeps it ascending. */
  lemma {:induction false} AtMostSpec(ws: seq<int>, maxCpu: int)
    ensures StrictlyAscending(ws) ==> StrictlyAscending(AtMost(ws, maxCpu))
  {
    if ws != [] {
      AtMostSpec(ws[1..], maxCpu);
      if StrictlyAscending(ws) {
        var kept := AtMost(ws, maxCpu);
        var rest := AtMost(ws[1..], maxCpu);
        assert forall w :: w in rest ==> ws[0] < w by {
          forall w | w in rest ensures ws[0] < w {
            var j :| 0 <= j < |ws[1..]| && ws[1..][j] == w;
            assert ws[j + 1] == w;
          }
        }
        if ws[0] <= maxCpu {
          assert kept == [ws[0]] + rest;
          forall a, b | 0 <= a < b < |kept| ensures kept[a] < kept[b] {
            if a == 0 {
              assert kept[b] == rest[b - 1];
              assert rest[b - 1] in rest;
            } else {
              assert kept[a] == rest[a - 1] && kept[b] == rest[b - 1];
            }
          }
        }
      }
    }
  }

  /** `worker_counts` in main. */
  function WorkerSweep(maxCpu: int): (sweep: seq<int>)
    ensures forall w :: w in sweep <==> w in CandidateWorkers && w <= maxCpu
  {
    AtMost(CandidateWorkers, maxCpu)
  }

  /**
   * The sweep is exactly the candidates not above the CPU count, ascending;
   * every count is at least 2, and the sweep is empty when there are fewer
   * than two CPUs.
   */
  lemma WorkerSweepSpec(maxCpu: int)
    ensures forall w :: w in WorkerSweep(maxCpu) <==> w in CandidateWorkers && w <= maxCpu
    ensures StrictlyAscending(WorkerSweep(maxCpu))
    ensures forall w :: w in WorkerSweep(maxCpu) ==> w >= 2
    ensures WorkerSweep(maxCpu) == [] <==> maxCpu < 2
  {
    AtMostSpec(CandidateWorkers, maxCpu);
    if maxCpu >= 2 {
      assert 2 in WorkerSweep(maxCpu);
    }
    if WorkerSweep(maxCpu) != [] {
      assert WorkerSweep(maxCpu)[0] in WorkerSweep(maxCpu);
    }
  }

  /**
   * Because every swept count is at least 2, the estimator's `workers <= 1`
   * branch is never taken for a run of the sweep: P is zero only when the
   * run showed no speedup.
   */
  lemma SweepAvoidsSingleWorkerBranch(maxCpu: int, w: int, serialTime: real, parallelTime: real)
    requires w in WorkerSweep(maxCpu) && parallelTime != 0.0
    ensures PredictedValue.EstimateParallelFraction(serialTime, parallelTime, w) == 0.0
            <==> serialTime / parallelTime <= 1.0
  {
    WorkerSweepSpec(maxCpu);
  }

  // ---------------------------------------------------------------------
  // main, as written
  // ---------------------------------------------------------------------

  /** A dataset entry: its name and its input directory. */
  datatype Dataset = Dataset(name: string, path: string)

  /** How `main` ends. */
  datatype MainOutcome = Finished | Crashed(dataset: string, error: PyError)

  /**
   * `main` as written. A dataset whose directory is missing is skipped. For
   * the first one that exists, `seq.run_serial(path, output_dir, save=True)`
   * passes a keyword that `run_serial(input_folder, output_folder)` does not
   * accept, so Python raises TypeError there and no measurement ever runs.
   * (`seq.measure_serial(path)` two lines later would also raise TypeError:
   * it lacks the `output_folder` argument.)
   */
  method RunMain(datasets: seq<Dataset>, pathExists: string -> bool) returns (outcome: MainOutcome)
    ensures outcome == Finished <==> forall i :: 0 <= i < |datasets| ==> !pathExists(datasets[i].path)
    ensures outcome.Crashed? ==>
              && outcome.error == TypeError
              && exists i :: 0 <= i < |datasets| && datasets[i].name == outcome.dataset
                   && pathExists(datasets[i].path)
                   && forall j :: 0 <= j < i ==> !pathExists(datasets[j].path)
  {
    for i := 0 to |datasets|
      invariant forall j :: 0 <= j < i ==> !pathExists(datasets[j].path)
    {
      var d := datasets[i];
      if !pathExists(d.path) {
        continue;
      }
      return Crashed(d.name, TypeError);
    }
    return Finished;
  }

  // ---------------------------------------------------------------------
  // main with the serial calls matching their signatures
  // ---------------------------------------------------------------------

  /** The collaborators of the benchmark: directory existence, CPU count and the three timers. */
  datatype Machine = Machine(
    pathExists: string -> bool,
    cpuCount: int,
    serialTime: string -> real,
    mpTime: (string, int) -> real,
    cfTime: (string, int) -> real)

  /** One pass `main` performs, in the order it performs them. */
  datatype Run =
    | SaveSerial(path: string, dataset: string)
    | TimeSerial(path: string)
    | TimeMp(path: string, workers: int)
    | TimeCf(path: string, workers: int)

  /** One printed row: worker count, measured time, speedup and efficiency. */
  datatype Row = Row(workers: int, time: real, speedup: real, efficiency: real)

  /** The two tables main prints for one dataset. */
  datatype DatasetReport = DatasetReport(name: string, serialTime: real, mp: seq<Row>, cf: seq<Row>)

  /** `speedup = t_serial / t` and `efficiency = speedup / w`. */
  function MakeRow(serialTime: real, w: int, t: real): (row: Row)
    requires t != 0.0 && w != 0
    ensures row.workers == w && row.time == t
    ensures row.speedup * t == serialTime
    ensures row.efficiency * (w as real) == row.speedup
  {
    var speedup := serialTime / t;
    Row(w, t, speedup, speedup / w as real)
  }

  /** No timed parallel run of an existing dataset takes zero seconds. */
  predicate TimingsNonZero(datasets: seq<Dataset>, m: Machine)
  {
    forall i, w :: 0 <= i < |datasets| && m.pathExists(datasets[i].path) && w in WorkerSweep(m.cpuCount) ==>
      m.mpTime(datasets[i].path, w) != 0.0 && m.cfTime(datasets[i].path, w) != 0.0
  }

  /** The rows of one sweep with the given timer. */
  function SweepRows(serialTime: real, path: string, ws: seq<int>, timer: (string, int) -> real): (rows: seq<Row>)
    requires forall k :: 0 <= k < |ws| ==> ws[k] != 0 && timer(path, ws[k]) != 0.0
    ensures |rows| == |ws|
  {
    seq(|ws|, k requires 0 <= k < |ws| => MakeRow(serialTime, ws[k], timer(path, ws[k])))
  }

  /** The passes main performs for one existing dataset. */
  function DatasetRuns(d: Dataset, ws: seq<int>): (runs: seq<Run>)
    ensures |runs| == 2 + 2 * |ws|
    ensures forall r :: r in runs ==> r.path == d.path
  {
    [SaveSerial(d.path, d.name), TimeSerial(d.path)]
      + seq(|ws|, k requires 0 <= k < |ws| => TimeMp(d.path, ws[k]))
      + seq(|ws|, k requires 0 <= k < |ws| => TimeCf(d.path, ws[k]))
  }

  lemma SweepFacts(datasets: seq<Dataset>, m: Machine, i: int)
    requires TimingsNonZero(datasets, m) && 0 <= i < |datasets| && m.pathExists(datasets[i].path)
    ensures forall k :: 0 <= k < |WorkerSweep(m.cpuCount)| ==>
              var w := WorkerSweep(m.cpuCount)[k];
              w >= 2 && m.mpTime(datasets[i].path, w) != 0.0 && m.cfTime(datasets[i].path, w) != 0.0
  {
    WorkerSweepSpec(m.cpuCount);
    forall k | 0 <= k < |WorkerSweep(m.cpuCount)|
      ensures WorkerSweep(m.cpuCount)[k] in WorkerSweep(m.cpuCount)
    {
    }
  }

  /** All passes of the benchmark over a dataset list. */
  function BenchmarkRuns(datasets: seq<Dataset>, m: Machine): (runs: seq<Run>)
    ensures forall r :: r in runs ==> exists i :: 0 <= i < |datasets| && datasets[i].path == r.path
  {
    if datasets == [] then []
    else
      var last := datasets[|datasets| - 1];
      assert forall i :: 0 <= i < |datasets| - 1 ==> datasets[..|datasets| - 1][i] == datasets[i];
      BenchmarkRuns(datasets[..|datasets| - 1], m)
        + (if m.pathExists(last.path) then DatasetRuns(last, WorkerSweep(m.cpuCount)) else [])
  }

  /** All printed tables of the benchmark over a dataset list. */
  function BenchmarkReports(datasets: seq<Dataset>, m: Machine): (reports: seq<DatasetReport>)
    requires TimingsNonZero(datasets, m)
    ensures |reports| <= |datasets|
  {
    if datasets == [] then []
    else
      var n := |datasets| - 1;
      var last := datasets[n];
      assert TimingsNonZero(datasets[..n], m);
      BenchmarkReports(datasets[..n], m)
        + if m.pathExists(last.path) then
            var ws := WorkerSweep(m.cpuCount);
            var t := m.serialTime(last.path);
            SweepFacts(datasets, m, n);
            [DatasetReport(last.name, t, SweepRows(t, last.path, ws, m.mpTime), SweepRows(t, last.path, ws, m.cfTime))]
          else []
  }

  /**
   * The body of main's dataset loop for a dataset whose directory exists:
   * the serial save pass, the serial baseline, then the process sweep and
   * the thread sweep, each row's speedup and efficiency computed from the
   * measured time.
   */
  method MeasureDataset(d: Dataset, m: Machine, workerCounts: seq<int>)
    returns (runs: seq<Run>, report: DatasetReport)
    requires forall k :: 0 <= k < |workerCounts| ==>
               var w := workerCounts[k];
               w >= 2 && m.mpTime(d.path, w) != 0.0 && m.cfTime(d.path, w) != 0.0
    ensures runs == DatasetRuns(d, workerCounts)
    ensures report == DatasetReport(d.name, m.serialTime(d.path),
                                    SweepRows(m.serialTime(d.path), d.path, workerCounts, m.mpTime),
                                    SweepRows(m.serialTime(d.path), d.path, workerCounts, m.cfTime))
  {
    runs := [SaveSerial(d.path, d.name)];
    var tSerial := m.serialTime(d.path);
    runs := runs + [TimeSerial(d.path)];

    var mpRows := [];
    var mpRuns := [];
    for k := 0 to |workerCounts|
      invariant |mpRows| == |mpRuns| == k
      invariant forall j :: 0 <= j < k ==>
                  mpRows[j] == MakeRow(tSerial, workerCounts[j], m.mpTime(d.path, workerCounts[j]))
                  && mpRuns[j] == TimeMp(d.path, workerCounts[j])
    {
      var w := workerCounts[k];
      var tMp := m.mpTime(d.path, w);
      mpRuns := mpRuns + [TimeMp(d.path, w)];
      var speedup := tSerial / tMp;
      var efficiency := speedup / w as real;
      mpRows := mpRows + [Row(w, tMp, speedup, efficiency)];
    }

    var cfRows := [];
    var cfRuns := [];
    for k := 0 to |workerCounts|
      invariant |cfRows| == |cfRuns| == k
      invariant forall j :: 0 <= j < k ==>
                  cfRows[j] == MakeRow(tSerial, workerCounts[j], m.cfTime(d.path, workerCounts[j]))
                  && cfRuns[j] == TimeCf(d.path, workerCounts[j])
    {
      var w := workerCounts[k];
      var tCf := m.cfTime(d.path, w);
      cfRuns := cfRuns + [TimeCf(d.path, w)];
      var speedup := tSerial / tCf;
      var efficiency := speedup / w as real;
      cfRows := cfRows + [Row(w, tCf, speedup, efficiency)];
    }

    runs := runs + mpRuns + cfRuns;
    report := DatasetReport(d.name, tSerial, mpRows, cfRows);
  }

  /**
   * `main` with the serial calls fixed to `run_serial(path, output_dir)` and a
   * timed serial baseline: for each dataset in order, skip it when its
   * directory is missing; otherwise save the serial outputs, time the serial
   * baseline, then time each swept worker count with processes and then with
   * threads, recording speedup and efficiency of each run.
   */
  method RunBenchmark(datasets: seq<Dataset>, m: Machine) returns (runs: seq<Run>, reports: seq<DatasetReport>)
    requires TimingsNonZero(datasets, m)
    ensures runs == BenchmarkRuns(datasets, m)
    ensures reports == BenchmarkReports(datasets, m)
  {
    var workerCounts := WorkerSweep(m.cpuCount);
    runs, reports := [], [];
    for i := 0 to |datasets|
      invariant TimingsNonZero(datasets[..i], m)
      invariant runs == BenchmarkRuns(datasets[..i], m)
      invariant reports == BenchmarkReports(datasets[..i], m)
    {
      var d := datasets[i];
      assert datasets[..i + 1][..i] == datasets[..i];
      assert datasets[..i + 1][i] == d;
      if !m.pathExists(d.path) {
        continue;
      }
      SweepFacts(datasets, m, i);
      var dRuns, report := MeasureDataset(d, m, workerCounts);
      runs := runs + dRuns;
      reports := reports + [report];
    }
    assert datasets[..|datasets|] == datasets;
  }

  // ---------------------------------------------------------------------
  // Properties of the benchmark
  // ---------------------------------------------------------------------

  /** A dataset whose directory is missing is skipped entirely: every pass is over an existing directory. */
  lemma {:induction false} RunsOnlyExistingPaths(datasets: seq<Dataset>, m: Machine)
    ensures forall r :: r in BenchmarkRuns(datasets, m) ==> m.pathExists(r.path)
  {
    if datasets != [] {
      var last := datasets[|datasets| - 1];
      RunsOnlyExistingPaths(datasets[..|datasets| - 1], m);
      forall r | r in DatasetRuns(last, WorkerSweep(m.cpuCount)) ensures r.path == last.path {
      }
    }
  }

  /** Every printed table belongs to a dataset whose directory exists. */
  lemma {:induction false} ReportsOnlyExistingDatasets(datasets: seq<Dataset>, m: Machine)
    requires TimingsNonZero(datasets, m)
    ensures forall rep :: rep in BenchmarkReports(datasets, m) ==>
              exists i :: 0 <= i < |datasets| && datasets[i].name == rep.name && m.pathExists(datasets[i].path)
  {
    if datasets != [] {
      var n := |datasets| - 1;
      var init := datasets[..n];
      assert TimingsNonZero(init, m);
      ReportsOnlyExistingDatasets(init, m);
      var initReports := BenchmarkReports(init, m);
      forall rep | rep in BenchmarkReports(datasets, m)
        ensures exists i :: 0 <= i < |datasets| && datasets[i].name == rep.name && m.pathExists(datasets[i].path)
      {
        if rep in initReports {
          var i :| 0 <= i < n && init[i].name == rep.name && m.pathExists(init[i].path);
          assert datasets[i] == init[i];
        } else {
          assert rep.name == datasets[n].name && m.pathExists(datasets[n].path);
        }
      }
    }
  }

  /** Every dataset whose directory exists gets its table. */
  lemma {:induction false} ExistingDatasetsReported(datasets: seq<Dataset>, m: Machine)
    requires TimingsNonZero(datasets, m)
    ensures forall i :: 0 <= i < |datasets| && m.pathExists(datasets[i].path) ==>
              exists rep :: rep in BenchmarkReports(datasets, m) && rep.name == datasets[i].name
  {
    if datasets != [] {
      var n := |datasets| - 1;
      var init := datasets[..n];
      assert TimingsNonZero(init, m);
      ExistingDatasetsReported(init, m);
      var reports := BenchmarkReports(datasets, m);
      var initReports := BenchmarkReports(init, m);
      assert reports[..|initReports|] == initReports;
      forall i | 0 <= i < |datasets| && m.pathExists(datasets[i].path)
        ensures exists rep :: rep in reports && rep.name == datasets[i].name
      {
        if i < n {
          assert datasets[i] == init[i];
          var rep :| rep in initReports && rep.name == init[i].name;
          assert rep in reports;
        } else {
          assert reports[|reports| - 1].name == datasets[n].name;
        }
      }
    }
  }

  /** With fewer than two CPUs the sweep is empty and no parallel measurement runs. */
  lemma {:induction false} NoParallelRunsBelowTwoCpus(datasets: seq<Dataset>, m: Machine)
    requires m.cpuCount < 2
    ensures forall r :: r in BenchmarkRuns(datasets, m) ==> r.SaveSerial? || r.TimeSerial?
  {
    WorkerSweepSpec(m.cpuCount);
    if datasets != [] {
      NoParallelRunsBelowTwoCpus(datasets[..|datasets| - 1], m);
      assert DatasetRuns(datasets[|datasets| - 1], []) == [SaveSerial(datasets[|datasets| - 1].path, datasets[|datasets| - 1].name), TimeSerial(datasets[|datasets| - 1].path)];
    }
  }

  /**
   * The speedup and efficiency columns main prints are the lists
   * `compute_speedup` and `compute_efficiency` of src/plot_analysis.py give
   * for the same times and worker counts.
   */
  lemma SweepRowsAgreeWithPlotAnalysis(serialTime: real, path: string, ws: seq<int>, timer: (string, int) -> real)
    requires forall k :: 0 <= k < |ws| ==> ws[k] != 0 && timer(path, ws[k]) != 0.0
    ensures var rows := SweepRows(serialTime, path, ws, timer);
      var times := seq(|rows|, k requires 0 <= k < |rows| => rows[k].time);
      var speedups := seq(|rows|, k requires 0 <= k < |rows| => rows[k].speedup);
      && (forall k :: 0 <= k < |times| ==> times[k] != 0.0)
      && speedups == PlotAnalysis.ComputeSpeedup(serialTime, times)
      && seq(|rows|, k requires 0 <= k < |rows| => rows[k].efficiency)
         == PlotAnalysis.ComputeEfficiency(speedups, ws)
  {
    var rows := SweepRows(serialTime, path, ws, timer);
    var times := seq(|rows|, k requires 0 <= k < |rows| => rows[k].time);
    var speedups := seq(|rows|, k requires 0 <= k < |rows| => rows[k].speedup);
    var efficiency := seq(|rows|, k requires 0 <= k < |rows| => rows[k].efficiency);
    var sp := PlotAnalysis.ComputeSpeedup(serialTime, times);
    var ef := PlotAnalysis.ComputeEfficiency(speedups, ws);
    assert |sp| == |speedups| && |ef| == |efficiency|;
    forall k | 0 <= k < |rows| ensures sp[k] == speedups[k] && ef[k] == efficiency[k] {
      assert rows[k] == MakeRow(serialTime, ws[k], timer(path, ws[k]));
      PlotAnalysis.SpeedupAt(serialTime, times, k);
      PlotAnalysis.EfficiencyAt(speedups, ws, k);
    }
  }
}

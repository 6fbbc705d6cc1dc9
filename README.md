# Parallel image-processing benchmark, modelled in Dafny

The benchmark applies a fixed chain of image filters to every image of a
directory in three ways: serially, with a pool of processes and with a pool
of threads. It times each run for a sweep of worker counts and reports the
speedup and efficiency of each run.

Two library files sit beside the driver; `src/main.py` imports and calls
neither:
- `src/predicted_value.py` fits Amdahl's Law to the best measured run and predicts speedup, execution time and
  efficiency for each worker count.
- `compute_speedup` and `compute_efficiency` in `src/plot_analysis.py` recompute the speedup and efficiency columns
  for plotting.

The model has one module per source file:

- `PredictedValue` covers `src/predicted_value.py`. It models the Amdahl fit, the predictor, the tie-break
  that picks the best run and the prediction loop, all in exact `real` arithmetic.
- `PlotAnalysis` covers `compute_speedup` and `compute_efficiency` from `src/plot_analysis.py`.
- `ImageProcessing` covers `adjust_brightness` from `src/imageProcessing.py`. It models NumPy's `int16` wrap and the
  clip to `[0, 255]`, pixel by pixel.
- `Pipeline` holds what the three pipelines share:
  - the extension filter;
  - the task list;
  - the per-task work of `process_image_mp` and `process_image_cf`;
  - a `Disk` class whose `writes` log records each `cv2.imwrite`;
  - `MapEachOnce`, which models `Pool.map` and `ThreadPoolExecutor.map` as running every task exactly once in an
    order the model does not fix.
- `SerialPipeline` covers `src/serial_pipeline.py`: a loop over the directory listing that writes in listing order.
- `MultiprocessingPipeline` covers `src/multiprocessing_pipeline.py`, and `MultithreadPipeline` covers
  `src/multithread_pipeline.py`. Their outcomes include Python's errors: `TypeError` when saving without an output
  folder, and `ValueError` for a pool of fewer than one worker.
- `Benchmark` covers `src/main.py`:
  - the worker sweep;
  - `main` as written, which stops with a `TypeError`;
  - `main` with the serial calls matching their signatures, as a loop over datasets that records every timed pass
    and the rows it prints.

Collaborators the model cannot see are parameters:
- `os.path.join`, `cv2.imread` and the four OpenCV filters are the function fields of `Pipeline.Env`;
- the directory listing is a sequence of names;
- directory existence, `cpu_count()` and the timers are the fields of `Benchmark.Machine`.

Facts about the code that the model keeps:
- The best run is the first index of the minimum time (`list.index(min(...))`). `PredictedValue.BestRunHasFewestWorkers`
  shows that this is the run with the fewest workers among tied minima when the worker list is strictly ascending,
  which the sweep always is.
- Under the textbook law `1/((1-P) + P/w)` the fitted P would give back the measured speedup at the fitted worker
  count. The code's predictor `1/(P + (1-P)/w)` does not (see Findings). For the same reason a best run with no
  speedup (P = 0) gives the linear prediction `w`.
- The sweep is `[2, 4, 8, 12, 16]` filtered by the CPU count; no single-worker run is taken.
- The serial pass that saves outputs in `main` runs outside the timed serial baseline. `measure_serial` itself times a
  full `run_serial`, which also writes its outputs.

## Model

| member | source | states |
|---|---|---|
| PredictedValue.Clamp01 | src/predicted_value.py:11 | the result lies in [0, 1], equals its argument when the argument already does, is 1 for an argument above 1 and 0 for a negative one |
| PredictedValue.EstimateParallelFraction | src/predicted_value.py:1-11 | P lies in [0, 1], and P is 0 exactly when workers <= 1 or the measured speedup is at most 1 |
| PredictedValue.FitIsExact | src/predicted_value.py:5-11 | when 1 < speedup <= workers the clamp is inactive: P == (1 - 1/speedup) / (1 - 1/workers) |
| PredictedValue.FitSaturates | src/predicted_value.py:5-11 | a speedup above the worker count clamps P to 1 |
| PredictedValue.AmdahlSpeedup | src/predicted_value.py:14-15 | the prediction is non-zero, lies in [1, w] for P in [0, 1] and w >= 1, is w when P is 0 and 1 when P is 1 |
| PredictedValue.AmdahlExecutionTime | src/predicted_value.py:18-19 | predicted time times predicted speedup gives back the serial time |
| PredictedValue.AmdahlEfficiency | src/predicted_value.py:22-23 | efficiency times workers gives back the speedup, and for w >= 1 it lies in [1/w, 1] when the speedup lies in [1, w] |
| PredictedValue.FirstMinIndex | src/predicted_value.py:32 | the index holds a minimum of the times, and every earlier entry is strictly larger |
| PredictedValue.BestRunHasFewestWorkers | src/predicted_value.py:32-34 | with strictly ascending worker counts, the chosen run has the fewest workers among the runs that tie for the minimum time |
| PredictedValue.ComputeAmdahlPredictions | src/predicted_value.py:26-65 | the fraction is the fit at the best run; the three lists have one entry per worker count, each entry is the speedup, time and efficiency predicted for that count, and each entry is within the Amdahl bounds |
| PredictedValue.FitRoundTripsWithSwappedFraction | src/predicted_value.py:5-15 | for 1 < speedup <= w, the predictor applied to 1 - P at w gives back the measured speedup |
| PredictedValue.FitPointMismatchExample | src/predicted_value.py:10-15 | serial 10 s and best 2.5 s at 8 workers fit P = 6/7, yet the predictor gives 8/7 at 8 workers instead of the measured 4 |
| PredictedValue.NoBenefitPredictsLinearSpeedup | src/predicted_value.py:7-15 | a best run with no speedup fits P = 0, and the predictor then promises the linear speedup w |
| PredictedValue.StandardSpeedup | src/predicted_value.py:15 | corrected predictor 1/((1-P) + P/w): equals the as-written one at 1 - P, lies in [1, w], and is 1 when P is 0 |
| PredictedValue.StandardSpeedupRoundTrip | src/predicted_value.py:5-15 | the corrected predictor at the fitted P gives back the measured speedup whenever 1 < speedup <= w |
| PlotAnalysis.ComputeSpeedup | src/plot_analysis.py:13-14 | one speedup per parallel time |
| PlotAnalysis.SpeedupAt | src/plot_analysis.py:13-14 | entry i is the serial time divided by parallel time i |
| PlotAnalysis.ComputeEfficiency | src/plot_analysis.py:17-18 | the zip stops at the shorter list: the length is the smaller of the two lengths |
| PlotAnalysis.EfficiencyAt | src/plot_analysis.py:17-18 | entry i is speedup i divided by worker count i |
| PlotAnalysis.EfficiencyFromTimes | src/plot_analysis.py:134-138 | efficiency i is the serial time divided by (time i times workers i) |
| ImageProcessing.AsInt16 | src/imageProcessing.py:29 | the cast lands in the int16 range, differs from its input by a multiple of 65536, and leaves a value already in that range unchanged |
| ImageProcessing.Clip | src/imageProcessing.py:30 | the result lies in [0, 255], equals the input when the input already does, is 255 above 255 and 0 below 0 |
| ImageProcessing.BrightPixel | src/imageProcessing.py:27-31 | the pixel lies in [0, 255]; it is exactly x + value when both it and x are 8-bit; it is 255 when 255 < x + value <= 32767 and 0 when x + value < 0 |
| ImageProcessing.AdjustBrightness | src/imageProcessing.py:27-31 | same number of pixels, each adjusted by BrightPixel |
| ImageProcessing.BrightnessInRange | src/imageProcessing.py:30-31 | every output pixel lies in [0, 255] |
| ImageProcessing.WrapAroundTurnsBlack | src/imageProcessing.py:29-30 | for an 8-bit pixel and an int16 offset, a sum above 32767 wraps negative and the pixel becomes 0 |
| ImageProcessing.WhitePlusMaxIsBlack | src/imageProcessing.py:29-30 | a white pixel (255) with the offset 32767 becomes black |
| ImageProcessing.BrightnessMonotone | src/imageProcessing.py:27-31 | for 8-bit images and an offset up to 32512, a pointwise brighter input gives a pointwise brighter output |
| ImageProcessing.ZeroOffsetIsIdentity | src/imageProcessing.py:27-31 | offset 0 leaves an 8-bit image unchanged |
| ImageProcessing.DefaultOffsetExamples | src/imageProcessing.py:27 | the default offset 20 maps [100, 240, 0] to [120, 255, 20] |
| Pipeline.LowerChar | src/serial_pipeline.py:26 | an ASCII capital maps to its small letter (code + 32); every other character is unchanged |
| Pipeline.Lower | src/serial_pipeline.py:26 | same length, each character lower-cased by LowerChar |
| Pipeline.LowerIdempotent | src/serial_pipeline.py:26 | lower-casing twice is lower-casing once |
| Pipeline.IsImageName | src/serial_pipeline.py:26 | a name that passes is at least four characters long (the shortest suffix) |
| Pipeline.ImageNameIgnoresCase | src/serial_pipeline.py:26 | a name passes exactly when its lower-cased form passes |
| Pipeline.UpperCaseNamesAccepted | src/serial_pipeline.py:26 | the match ignores case: "A.JPEG" and "b.Png" pass the filter |
| Pipeline.OtherNamesRejected | src/serial_pipeline.py:26 | "notes.txt", the bare "jpg" and "x.jpg.bak" fail the filter |
| Pipeline.ImageNames | src/multiprocessing_pipeline.py:47-48 | no more names are kept than listed, and each kept name is listed and passes the filter |
| Pipeline.ImageNamesAppend | src/multiprocessing_pipeline.py:47-48 | filtering distributes over concatenation of listings |
| Pipeline.ImageNamesExactly | src/multiprocessing_pipeline.py:47-48 | a name is kept exactly when it is listed and passes the filter |
| Pipeline.FilterChain | src/multiprocessing_pipeline.py:24-28 | the filter chain is the OpenCV stages followed by adjust_brightness with offset 20, so every pixel written lies in [0, 255] |
| Pipeline.Disk.ImWrite | src/serial_pipeline.py:20 | appends exactly one write of the image to the path and changes nothing else |
| Pipeline.MakeTask | src/multiprocessing_pipeline.py:42-46 | the input is the joined input path, the flag is `save`, and the output is the joined output path exactly when saving, else None |
| Pipeline.BuildTasks | src/multiprocessing_pipeline.py:41-49 | a failing list only arises when saving without an output folder; a built list has one task per kept name |
| Pipeline.BuildTasksSpec | src/multiprocessing_pipeline.py:41-49 | the list raises exactly when save is set, no output folder is given and some name passes the filter; otherwise there is one task per kept name, in order, with the joined input path and the joined output path (None when not saving) |
| Pipeline.MeasurementTasksHaveNoOutput | src/multiprocessing_pipeline.py:58-61 | in measurement mode the task list never raises and no task has an output path or save flag |
| Pipeline.TaskOutcome | src/multiprocessing_pipeline.py:16-31 | a task writes exactly when its image loads, save is set and its output path is a non-empty string, and it writes the filtered image there |
| Pipeline.TaskWritesPermutation | src/multiprocessing_pipeline.py:51-52 | any reordering of the tasks produces the same multiset of writes |
| Pipeline.NoSaveNoWrites | src/multiprocessing_pipeline.py:30-31 | tasks without the save flag write nothing |
| Pipeline.ProcessTask | src/multiprocessing_pipeline.py:16-31 | the disk gains exactly the write the task's outcome calls for |
| Pipeline.MapEachOnce | src/multiprocessing_pipeline.py:51-52 | earlier writes are kept, and the new writes are, as a multiset, those of running every task once |
| SerialPipeline.ImageOutcome | src/serial_pipeline.py:6-20 | an image that loads yields the filtered image, and one that does not yields nothing |
| SerialPipeline.ProcessImage | src/serial_pipeline.py:6-20 | writes the filtered image to the output path exactly when the input loads, otherwise leaves the disk unchanged |
| SerialPipeline.SerialWrites | src/serial_pipeline.py:25-29 | at most one write per kept image name |
| SerialPipeline.RunSerial | src/serial_pipeline.py:22-29 | appends, in listing order, the writes of every image name |
| SerialPipeline.MeasureSerial | src/serial_pipeline.py:31-35 | the timed run writes exactly what RunSerial writes |
| SerialPipeline.LoadedNames | src/serial_pipeline.py:8-12 | a name is loaded exactly when it is among the given names and its image loads |
| SerialPipeline.LoadedNamesAppend | src/serial_pipeline.py:25-29 | loading distributes over concatenation, so the loaded names keep listing order |
| SerialPipeline.SerialWritesSpec | src/serial_pipeline.py:25-29 | one write per kept name that loads, in listing order, to the output folder joined with that name, holding that image filtered |
| SerialPipeline.SerialMatchesTasks | src/serial_pipeline.py:22-29 | the serial run writes the same multiset as the parallel task list in save mode with the same output folder |
| MultiprocessingPipeline.RunMp | src/multiprocessing_pipeline.py:37-52 | TypeError when the task list raises, else ValueError when workers < 1, else completion with exactly the task writes as a multiset; nothing is written on an error path |
| MultiprocessingPipeline.MeasureMp | src/multiprocessing_pipeline.py:58-61 | measurement writes nothing; it completes when workers >= 1 and raises ValueError otherwise |
| MultithreadPipeline.RunCf | src/multithread_pipeline.py:36-51 | same outcomes and writes as the process pool, for the thread pool |
| MultithreadPipeline.MeasureCf | src/multithread_pipeline.py:56-59 | measurement writes nothing; it completes when workers >= 1 and raises ValueError otherwise |
| Benchmark.AtMost | src/main.py:23 | a count is kept exactly when it is listed and not above the CPU count, and no more counts are kept than listed |
| Benchmark.AtMostAppend | src/main.py:23 | filtering distributes over concatenation, so the kept counts keep their listed order |
| Benchmark.AtMostSpec | src/main.py:23 | filtering a strictly ascending list leaves it strictly ascending |
| Benchmark.WorkerSweep | src/main.py:21-23 | a count is swept exactly when it is a candidate not above the CPU count |
| Benchmark.WorkerSweepSpec | src/main.py:21-23 | the sweep is exactly the candidates up to the CPU count, strictly ascending, all at least 2, and empty exactly when there are fewer than 2 CPUs |
| Benchmark.SweepAvoidsSingleWorkerBranch | src/main.py:22-23 | for a swept count, the fit is 0 exactly when the run showed no speedup |
| Benchmark.RunMain | src/main.py:27-35 | main as written finishes exactly when no dataset directory exists; otherwise it raises TypeError at the first existing one |
| Benchmark.MakeRow | src/main.py:53-54 | the row holds the count and its time; speedup times time gives back the serial time, and efficiency times workers gives back the speedup |
| Benchmark.DatasetRuns | src/main.py:35-66 | an existing dataset gets two serial passes and two passes per swept count, all over its own directory |
| Benchmark.BenchmarkRuns | src/main.py:27-66 | every pass is over the directory of a listed dataset |
| Benchmark.BenchmarkReports | src/main.py:27-66 | at most one table per listed dataset |
| Benchmark.SweepRows | src/main.py:51-55 | one row per swept worker count |
| Benchmark.MeasureDataset | src/main.py:33-66 | the passes are the save pass, the serial timing, the process sweep and then the thread sweep; each row holds the count, its time, speedup and efficiency |
| Benchmark.RunBenchmark | src/main.py:27-66 | the passes and tables are those of every existing dataset, in order |
| Benchmark.RunsOnlyExistingPaths | src/main.py:29-31 | every pass is over an existing dataset directory |
| Benchmark.ReportsOnlyExistingDatasets | src/main.py:29-31 | every table belongs to a dataset whose directory exists |
| Benchmark.ExistingDatasetsReported | src/main.py:27-44 | every dataset whose directory exists gets a table |
| Benchmark.NoParallelRunsBelowTwoCpus | src/main.py:21-23 | with fewer than 2 CPUs no parallel pass is run |
| Benchmark.SweepRowsAgreeWithPlotAnalysis | src/main.py:51-66 | the printed speedup and efficiency columns are exactly compute_speedup and compute_efficiency over the sweep |

## Left out

- The OpenCV stages (grayscale, Gaussian blur, Sobel, sharpen): one opaque image-to-image function; only `adjust_brightness` is modelled pixel by pixel.
- `src/serial_pipeline.py:4` imports its filters from a module `filters`, which is not part of this model. The model takes it to provide the same chain as `src/imageProcessing.py`.
- Pool scheduling, chunking, process start-up and thread interleaving: the model fixes only that every task runs once; the order of the writes is left open.
- Exceptions raised inside a task (a failing filter or `imwrite`): `Pool.map` would re-raise them; image loading failure is the only task failure modelled.
- Clocks: `measure_serial`, `measure_mp` and `measure_cf` return a duration the model takes from `Benchmark.Machine`; the durations themselves are not modelled.
- `os.makedirs`, `os.listdir`, `os.path.exists` and `cpu_count()`: their results are inputs; directory creation has no effect in the model.
- `print`, the plotting functions of `src/plot_analysis.py` and the dataset conversion in `src/h5_to_images.py`.
- Floating point: all timings, speedups and fractions are exact `real`s, so rounding and the formatted output are not modelled.
- Pipeline.Lower: lower-cases ASCII letters only, where Python's `str.lower` also handles non-ASCII letters.
- ImageProcessing.BrightPixel: requires the offset to fit in `int16`, as NumPy 2 does; NumPy 1 would upcast a larger offset instead of raising.
- Benchmark.RunBenchmark: requires every swept run to take a non-zero time, because a zero time makes `main` raise ZeroDivisionError.
- PlotAnalysis.ComputeSpeedup: requires every parallel time to be non-zero, because a zero time raises ZeroDivisionError at `src/plot_analysis.py:14`.
- PlotAnalysis.ComputeEfficiency: requires every paired worker count to be non-zero, because a zero count raises ZeroDivisionError at `src/plot_analysis.py:18`.
- PredictedValue.EstimateParallelFraction: requires a non-zero parallel time, because a zero time raises ZeroDivisionError at `src/predicted_value.py:5`.
- PredictedValue.ComputeAmdahlPredictions: the printed table is not modelled. Its precondition excludes the inputs on which Python raises: an empty measured list (ValueError from `min`), a best index beyond the worker list (IndexError), a zero best time and a zero predictor denominator (ZeroDivisionError).
- Pipeline.ProcessTask models both `process_image_mp` and `process_image_cf`, whose bodies are the same.

## Findings

| source | as written | input that shows it | evidently intended | confidence | as-written member | corrected member |
|---|---|---|---|---|---|---|
| src/predicted_value.py:15 | `1 / (P + (1 - P) / workers)` divides the serial share by the worker count, while the fit on line 10 treats P as the parallel share | serial 10 s, best run 2.5 s at 8 workers: the fit gives P = 6/7, and the predictor gives 8/7 at 8 workers instead of the measured 4 | `1 / ((1 - P) + P / workers)`, which gives back the measured speedup at the fitted point | high; not executed | PredictedValue.FitPointMismatchExample | PredictedValue.StandardSpeedup |
| src/main.py:35 | `seq.run_serial(path, output_dir, save=True)` passes a keyword that `run_serial(input_folder, output_folder)` does not take; `seq.measure_serial(path)` on line 43 also omits `output_folder` | any dataset whose directory exists: main raises TypeError before any timing | `run_serial(path, output_dir)` followed by a timed serial baseline | high; not executed | Benchmark.RunMain | Benchmark.RunBenchmark |

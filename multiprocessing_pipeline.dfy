/**
 * The process-based pipeline (src/multiprocessing_pipeline.py). Scheduling across workers is not
 * modelled: the pool is a step that processes every task exactly once, in
 * an order left open.
 */
module MultiprocessingPipeline {
  import opened Wrappers
  import opened Pipeline

  /**
   * `run_mp(input_folder, output_folder=None, workers=1, save=False)`: build
   * the task list (which raises TypeError when saving without an output
   * folder and some name passes the filter); `Pool(processes=workers)` raises
   * ValueError for fewer than one process; then `pool.map(process_image_mp,
   * tasks)`. The worker count only decides whether the pool can start,
   * never which tasks exist.
   */
  method RunMp(env: Env, disk: Disk, listing: seq<string>, inputFolder: string,
              outputFolder: Option<string> := None, workers: int := 1, save: bool := false)
    returns (outcome: RunOutcome)
    modifies disk
    ensures BuildTasks(env, listing, inputFolder, outputFolder, save).None? ==>
              outcome == Raised(TypeError) && disk.writes == old(disk.writes)
    ensures BuildTasks(env, listing, inputFolder, outputFolder, save).Some? && workers < 1 ==>
              outcome == Raised(ValueError) && disk.writes == old(disk.writes)
    ensures BuildTasks(env, listing, inputFolder, outputFolder, save).Some? && workers >= 1 ==>
              && outcome == Completed
              && |disk.writes| >= |old(disk.writes)|
              && disk.writes[..|old(disk.writes)|] == old(disk.writes)
              && multiset(disk.writes[|old(disk.writes)|..])
                 == multiset(TaskWrites(env, BuildTasks(env, listing, inputFolder, outputFolder, save).value))
  {
    var tasks := BuildTasks(env, listing, inputFolder, outputFolder, save);
    if tasks.None? {
      return Raised(TypeError);
    }
    if workers < 1 {
      return Raised(ValueError);
    }
    MapEachOnce(env, disk, tasks.value);
    return Completed;
  }

  /**
   * `measure_mp(input_folder, workers)`: a run with `save=False` and no output
   * folder. It never writes anything. The clock is not modelled.
   */
  method MeasureMp(env: Env, disk: Disk, listing: seq<string>, inputFolder: string, workers: int)
    returns (outcome: RunOutcome)
    modifies disk
    ensures disk.writes == old(disk.writes)
    ensures outcome == if workers >= 1 then Completed else Raised(ValueError)
  {
    MeasurementTasksHaveNoOutput(env, listing, inputFolder, None);
    NoSaveNoWrites(env, BuildTasks(env, listing, inputFolder, None, false).value);
    outcome := RunMp(env, disk, listing, inputFolder, workers := workers);
    if outcome == Completed {
      var added := disk.writes[|old(disk.writes)|..];
      assert |added| == |multiset(added)| == 0;
      assert disk.writes == disk.writes[..|old(disk.writes)|] + added;
    }
  }
}

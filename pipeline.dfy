/**
 * What the three pipelines (src/serial_pipeline.py,
 * src/multiprocessing_pipeline.py, src/multithread_pipeline.py) share: the
 * file-name filter, the collaborators they call, the disk they write to, and
 * the task list and per-task step of the two parallel pipelines, which are
 * the same code in both files.
 */
module Pipeline {
  import opened Wrappers
  import ImageProcessing

  /** Pixel values, flattened. */
  type Image = seq<int>

  // ---------------------------------------------------------------------
  // The file-name filter `f.lower().endswith((".jpg", ".png", ".jpeg"))`
  // ---------------------------------------------------------------------

  /** `str.lower` on one character; only ASCII letters are modelled. */
  function LowerChar(c: char): (r: char)
    ensures 'A' <= c <= 'Z' ==> 'a' <= r <= 'z' && r as int == c as int + 32
    ensures !('A' <= c <= 'Z') ==> r == c
  {
    if 'A' <= c <= 'Z' then (c as int + 32) as char else c
  }

  function Lower(s: string): (r: string)
    ensures |r| == |s|
    ensures forall i :: 0 <= i < |s| ==> r[i] == LowerChar(s[i])
  {
    seq(|s|, i requires 0 <= i < |s| => LowerChar(s[i]))
  }

  predicate EndsWith(s: string, suffix: string)
  {
    |suffix| <= |s| && s[|s| - |suffix|..] == suffix
  }

  /** A listed file is an image when its lower-cased name ends in .jpg, .png or .jpeg. */
  predicate IsImageName(name: string): (b: bool)
    ensures b ==> |name| >= 4
  {
    var lower := Lower(name);
    EndsWith(lower, ".jpg") || EndsWith(lower, ".png") || EndsWith(lower, ".jpeg")
  }

  /** Lower-casing twice is lower-casing once. */
  lemma LowerIdempotent(s: string)
    ensures Lower(Lower(s)) == Lower(s)
  {
    assert forall i :: 0 <= i < |s| ==> LowerChar(LowerChar(s[i])) == LowerChar(s[i]);
  }

  /** The filter only looks at the lower-cased name: a name and its lower-cased form are kept alike. */
  lemma ImageNameIgnoresCase(name: string)
    ensures IsImageName(Lower(name)) <==> IsImageName(name)
  {
    LowerIdempotent(name);
  }

  /** The test ignores case: "A.JPEG" and "b.Png" are images. */
  lemma UpperCaseNamesAccepted()
    ensures IsImageName("A.JPEG") && IsImageName("b.Png")
  {
    var a, b := Lower("A.JPEG"), Lower("b.Png");
    assert a[1] == '.' && a[2] == 'j' && a[3] == 'p' && a[4] == 'e' && a[5] == 'g';
    assert a[1..] == ".jpeg";
    assert b[1] == '.' && b[2] == 'p' && b[3] == 'n' && b[4] == 'g';
    assert b[1..] == ".png";
  }

  /** A name is rejected when no allowed suffix ends it: "notes.txt", "jpg" and "x.jpg.bak". */
  lemma OtherNamesRejected()
    ensures !IsImageName("notes.txt") && !IsImageName("jpg") && !IsImageName("x.jpg.bak")
  {
    assert Lower("notes.txt") == "notes.txt";
    assert Lower("x.jpg.bak") == "x.jpg.bak";
    assert "notes.txt"[5..] == ".txt" && "notes.txt"[4..] == "s.txt";
    assert "x.jpg.bak"[5..] == ".bak" && "x.jpg.bak"[4..] == "g.bak";
  }

  /** The listed names that pass the filter, in listing order. */
  function ImageNames(listing: seq<string>): (names: seq<string>)
    ensures |names| <= |listing|
    ensures forall f :: f in names ==> f in listing && IsImageName(f)
  {
    if listing == [] then []
    else if IsImageName(listing[0]) then [listing[0]] + ImageNames(listing[1..])
    else ImageNames(listing[1..])
  }

  /** Filtering a concatenation filters each part: the filter keeps listing order. */
  lemma {:induction false} ImageNamesAppend(a: seq<string>, b: seq<string>)
    ensures ImageNames(a + b) == ImageNames(a) + ImageNames(b)
  {
    if a != [] {
      assert (a + b)[0] == a[0];
      assert (a + b)[1..] == a[1..] + b;
      ImageNamesAppend(a[1..], b);
    } else {
      assert a + b == b;
    }
  }

  /** Every listed image name is kept; nothing else is. */
  lemma {:induction false} ImageNamesExactly(listing: seq<string>, f: string)
    ensures f in ImageNames(listing) <==> f in listing && IsImageName(f)
  {
    if listing != [] {
      ImageNamesExactly(listing[1..], f);
      assert f in listing <==> f == listing[0] || f in listing[1..];
    }
  }

  // ---------------------------------------------------------------------
  // Collaborators and the disk
  // ---------------------------------------------------------------------

  /**
   * The collaborators a pipeline calls but this model does not look inside:
   * `os.path.join`, `cv2.imread` (None when the file cannot be decoded) and
   * the four OpenCV stages grayscale, gaussian_blur, sobel_edge and sharpen,
   * composed into one function.
   */
  datatype Env = Env(
    join: (string, string) -> string,
    imread: string -> Option<Image>,
    opencvStages: Image -> Image)

  /** The five-stage chain applied to a loaded image: the OpenCV stages, then brightness +20. */
  function FilterChain(env: Env, img: Image): (out: Image)
    ensures out == ImageProcessing.AdjustBrightness(env.opencvStages(img), 20)
    ensures forall i :: 0 <= i < |out| ==> 0 <= out[i] <= 255
  {
    ImageProcessing.AdjustBrightness(env.opencvStages(img), 20)
  }

  /** The exceptions a pipeline run can raise, and how a run ends. */
  datatype PyError = TypeError | ValueError
  datatype RunOutcome = Completed | Raised(error: PyError)

  /** One `cv2.imwrite` call. */
  datatype Write = Write(path: string, image: Image)

  /** The output side of the file system, as the sequence of writes made to it. */
  class Disk {
    var writes: seq<Write>

    constructor ()
      ensures writes == []
    {
      writes := [];
    }

    /** `cv2.imwrite(path, image)` */
    method ImWrite(path: string, image: Image)
      modifies this
      ensures writes == old(writes) + [Write(path, image)]
    {
      writes := writes + [Write(path, image)];
    }
  }

  // ---------------------------------------------------------------------
  // The task list of the parallel pipelines
  // ---------------------------------------------------------------------

  /** `(input_path, output_path, save)`; the output path is None when not saving. */
  datatype Task = Task(input: string, output: Option<string>, save: bool)

  /** The task for one image name; `outputFolder` is only looked at when saving. */
  function MakeTask(env: Env, inputFolder: string, outputFolder: string, save: bool, f: string): (t: Task)
    ensures t.input == env.join(inputFolder, f) && t.save == save
    ensures t.output.Some? <==> save
    ensures save ==> t.output.value == env.join(outputFolder, f)
  {
    Task(env.join(inputFolder, f), if save then Some(env.join(outputFolder, f)) else None, save)
  }

  /**
   * The comprehension in `run_mp` / `run_cf`. With `save` set and no output
   * folder, `os.path.join(None, f)` raises TypeError at the first image
   * name: the result is None then.
   */
  function BuildTasks(env: Env, listing: seq<string>, inputFolder: string, outputFolder: Option<string>, save: bool)
    : (tasks: Option<seq<Task>>)
    ensures tasks.None? ==> save && outputFolder.None?
    ensures tasks.Some? ==> |tasks.value| == |ImageNames(listing)|
  {
    if listing == [] then Some([])
    else if !IsImageName(listing[0]) then BuildTasks(env, listing[1..], inputFolder, outputFolder, save)
    else if save && outputFolder.None? then None
    else
      var first := MakeTask(env, inputFolder, if outputFolder.Some? then outputFolder.value else "", save, listing[0]);
      match BuildTasks(env, listing[1..], inputFolder, outputFolder, save)
      case None => None
      case Some(rest) => Some([first] + rest)
  }

  /**
   * The task list fails exactly when saving without an output folder and
   * some name passes the filter; otherwise it holds one task per image name,
   * in listing order, with input `join(inputFolder, f)`, output
   * `join(outputFolder, f)` when saving and None otherwise, and the flag.
   */
  lemma {:induction false} BuildTasksSpec(env: Env, listing: seq<string>, inputFolder: string, outputFolder: Option<string>, save: bool)
    ensures BuildTasks(env, listing, inputFolder, outputFolder, save).None?
        <==> (save && outputFolder.None? && |ImageNames(listing)| > 0)
    ensures var names := ImageNames(listing);
      BuildTasks(env, listing, inputFolder, outputFolder, save).Some? ==>
        var tasks := BuildTasks(env, listing, inputFolder, outputFolder, save).value;
        && |tasks| == |names|
        && forall k :: 0 <= k < |tasks| ==>
             && tasks[k].input == env.join(inputFolder, names[k])
             && tasks[k].output == (if save then Some(env.join(outputFolder.value, names[k])) else None)
             && tasks[k].save == save
  {
    if listing != [] {
      var f, rest := listing[0], listing[1..];
      BuildTasksSpec(env, rest, inputFolder, outputFolder, save);
      if IsImageName(f) {
        assert ImageNames(listing) == [f] + ImageNames(rest);
        if !(save && outputFolder.None?) && BuildTasks(env, rest, inputFolder, outputFolder, save).Some? {
          var first := MakeTask(env, inputFolder, if outputFolder.Some? then outputFolder.value else "", save, f);
          var restTasks := BuildTasks(env, rest, inputFolder, outputFolder, save).value;
          assert BuildTasks(env, listing, inputFolder, outputFolder, save).value == [first] + restTasks;
        }
      } else {
        assert ImageNames(listing) == ImageNames(rest);
      }
    }
  }

  /** In measurement mode (save false) the task list always exists and no task has an output path. */
  lemma MeasurementTasksHaveNoOutput(env: Env, listing: seq<string>, inputFolder: string, outputFolder: Option<string>)
    ensures BuildTasks(env, listing, inputFolder, outputFolder, false).Some?
    ensures forall t :: t in BuildTasks(env, listing, inputFolder, outputFolder, false).value ==>
              t.output.None? && !t.save
  {
    BuildTasksSpec(env, listing, inputFolder, outputFolder, false);
    var tasks := BuildTasks(env, listing, inputFolder, outputFolder, false).value;
    forall t | t in tasks ensures t.output.None? && !t.save {
      var k :| 0 <= k < |tasks| && tasks[k] == t;
    }
  }

  // ---------------------------------------------------------------------
  // `process_image_mp` / `process_image_cf` and `Pool.map` / `executor.map`
  // ---------------------------------------------------------------------

  /** The write one task makes: none when the image fails to load or when not saving to a non-empty path. */
  function TaskOutcome(env: Env, task: Task): (w: seq<Write>)
    ensures |w| <= 1
    ensures env.imread(task.input).None? ==> w == []
    ensures !task.save || task.output.None? ==> w == []
    ensures |w| == 1 <==> env.imread(task.input).Some? && task.save && task.output.Some? && task.output.value != ""
    ensures |w| == 1 ==> w[0] == Write(task.output.value, FilterChain(env, env.imread(task.input).value))
  {
    match env.imread(task.input)
    case None => []
    case Some(img) =>
      if task.save && task.output.Some? && task.output.value != "" then
        [Write(task.output.value, FilterChain(env, img))]
      else []
  }

  /** The writes of a task list, one task after another. */
  function TaskWrites(env: Env, tasks: seq<Task>): seq<Write>
  {
    if tasks == [] then [] else TaskOutcome(env, tasks[0]) + TaskWrites(env, tasks[1..])
  }

  lemma {:induction false} TaskWritesAppend(env: Env, a: seq<Task>, b: seq<Task>)
    ensures TaskWrites(env, a + b) == TaskWrites(env, a) + TaskWrites(env, b)
  {
    if a != [] {
      assert (a + b)[0] == a[0];
      assert (a + b)[1..] == a[1..] + b;
      TaskWritesAppend(env, a[1..], b);
    } else {
      assert a + b == b;
    }
  }

  /** The bag of writes does not depend on the order in which the tasks are run. */
  lemma {:induction false} TaskWritesPermutation(env: Env, a: seq<Task>, b: seq<Task>)
    requires multiset(a) == multiset(b)
    ensures multiset(TaskWrites(env, a)) == multiset(TaskWrites(env, b))
    decreases |a|
  {
    if a != [] {
      var x := a[0];
      assert x in multiset(b);
      assert x in b;
      var k :| 0 <= k < |b| && b[k] == x;
      var b' := b[..k] + b[k + 1..];
      RemoveTask(env, b, k);
      MultisetTail(a);
      TaskWritesPermutation(env, a[1..], b');
      assert TaskWrites(env, a) == TaskOutcome(env, x) + TaskWrites(env, a[1..]);
      assert multiset(TaskWrites(env, a))
          == multiset(TaskOutcome(env, x)) + multiset(TaskWrites(env, a[1..]));
    } else {
      assert |b| == |multiset(b)| == 0;
    }
  }

  lemma MultisetTail<T>(a: seq<T>)
    requires a != []
    ensures multiset(a[1..]) == multiset(a) - multiset{a[0]}
  {
    assert a == [a[0]] + a[1..];
  }

  /** Taking task k out of a list takes its writes out of the bag. */
  lemma RemoveTask(env: Env, b: seq<Task>, k: nat)
    requires k < |b|
    ensures multiset(b[..k] + b[k + 1..]) == multiset(b) - multiset{b[k]}
    ensures multiset(TaskWrites(env, b))
         == multiset(TaskWrites(env, b[..k] + b[k + 1..])) + multiset(TaskOutcome(env, b[k]))
  {
    var x := b[k];
    assert b == b[..k] + [x] + b[k + 1..];
    assert multiset(b) == multiset(b[..k]) + multiset{x} + multiset(b[k + 1..]);
    TaskWritesAppend(env, b[..k] + [x], b[k + 1..]);
    TaskWritesAppend(env, b[..k], [x]);
    TaskWritesAppend(env, b[..k], b[k + 1..]);
    assert TaskWrites(env, [x]) == TaskOutcome(env, x);
  }

  /** No task of a measurement-mode list writes anything. */
  lemma {:induction false} NoSaveNoWrites(env: Env, tasks: seq<Task>)
    requires forall t :: t in tasks ==> !t.save
    ensures TaskWrites(env, tasks) == []
  {
    if tasks != [] {
      NoSaveNoWrites(env, tasks[1..]);
    }
  }

  /**
   * `process_image_mp(args)` (and the identical `process_image_cf`): load;
   * stop if that failed; run the chain stage by stage; write only when
   * `save and output_path` holds.
   */
  method ProcessTask(env: Env, disk: Disk, task: Task)
    modifies disk
    ensures disk.writes == old(disk.writes) + TaskOutcome(env, task)
  {
    var loaded := env.imread(task.input);
    if loaded.None? {
      return;
    }
    var img := loaded.value;
    img := env.opencvStages(img);
    img := ImageProcessing.AdjustBrightness(img, 20);
    if task.save && task.output.Some? && task.output.value != "" {
      disk.ImWrite(task.output.value, img);
    }
  }

  /**
   * `pool.map(process_image_mp, tasks)` / `executor.map(process_image_cf,
   * tasks)`: workers pull tasks in an order the model leaves open (each step
   * takes any task not yet taken), and every task is processed exactly once.
   * Only the bag of writes is determined.
   */
  method MapEachOnce(env: Env, disk: Disk, tasks: seq<Task>)
    modifies disk
    ensures |disk.writes| >= |old(disk.writes)| && disk.writes[..|old(disk.writes)|] == old(disk.writes)
    ensures multiset(disk.writes[|old(disk.writes)|..]) == multiset(TaskWrites(env, tasks))
  {
    ghost var before := disk.writes;
    var pending := multiset(tasks);
    ghost var taken: seq<Task> := [];
    while pending != multiset{}
      invariant multiset(taken) + pending == multiset(tasks)
      invariant disk.writes == before + TaskWrites(env, taken)
      decreases |pending|
    {
      var t :| t in pending;
      ProcessTask(env, disk, t);
      TaskWritesAppend(env, taken, [t]);
      assert TaskWrites(env, [t]) == TaskOutcome(env, t);
      taken := taken + [t];
      pending := pending - multiset{t};
    }
    assert multiset(taken) == multiset(tasks);
    TaskWritesPermutation(env, taken, tasks);
    assert disk.writes[|before|..] == TaskWrites(env, taken);
  }
}

/**
 * The sequential pipeline (src/serial_pipeline.py): one loop over the
 * directory listing, one image at a time, every loaded image written.
 */
module SerialPipeline {
  import opened Wrappers
  import opened Pipeline
  import ImageProcessing

  /** The write `process_image(inputPath, outputPath)` makes: none when the image fails to load. */
  function ImageOutcome(env: Env, inputPath: string, outputPath: string): (w: seq<Write>)
    ensures |w| <= 1
    ensures |w| == 1 <==> env.imread(inputPath).Some?
    ensures |w| == 1 ==> w[0] == Write(outputPath, FilterChain(env, env.imread(inputPath).value))
  {
    match env.imread(inputPath)
    case None => []
    case Some(img) => [Write(outputPath, FilterChain(env, img))]
  }

  /**
   * `process_image`: load; on failure report and return; otherwise run the
   * five filters one after another and write the result.
   */
  method ProcessImage(env: Env, disk: Disk, inputPath: string, outputPath: string)
    modifies disk
    ensures disk.writes == old(disk.writes) + ImageOutcome(env, inputPath, outputPath)
  {
    var loaded := env.imread(inputPath);
    if loaded.None? {
      return;
    }
    var img := loaded.value;
    img := env.opencvStages(img);
    img := ImageProcessing.AdjustBrightness(img, 20);
    disk.ImWrite(outputPath, img);
  }

  /** The writes of `run_serial` over a listing, one listed name after another. */
  function SerialWrites(env: Env, listing: seq<string>, inputFolder: string, outputFolder: string): (writes: seq<Write>)
    ensures |writes| <= |ImageNames(listing)|
  {
    if listing == [] then []
    else
      var f := listing[0];
      (if IsImageName(f) then ImageOutcome(env, env.join(inputFolder, f), env.join(outputFolder, f)) else [])
      + SerialWrites(env, listing[1..], inputFolder, outputFolder)
  }

  lemma {:induction false} SerialWritesAppend(env: Env, a: seq<string>, b: seq<string>, inputFolder: string, outputFolder: string)
    ensures SerialWrites(env, a + b, inputFolder, outputFolder)
         == SerialWrites(env, a, inputFolder, outputFolder) + SerialWrites(env, b, inputFolder, outputFolder)
  {
    if a != [] {
      assert (a + b)[0] == a[0];
      assert (a + b)[1..] == a[1..] + b;
      SerialWritesAppend(env, a[1..], b, inputFolder, outputFolder);
    } else {
      assert a + b == b;
    }
  }

  /** One more listed name adds that name's writes. */
  lemma SerialWritesStep(env: Env, listing: seq<string>, i: nat, inputFolder: string, outputFolder: string)
    requires i < |listing|
    ensures SerialWrites(env, listing[..i + 1], inputFolder, outputFolder)
         == SerialWrites(env, listing[..i], inputFolder, outputFolder)
            + (if IsImageName(listing[i])
               then ImageOutcome(env, env.join(inputFolder, listing[i]), env.join(outputFolder, listing[i]))
               else [])
  {
    assert listing[..i + 1] == listing[..i] + [listing[i]];
    SerialWritesAppend(env, listing[..i], [listing[i]], inputFolder, outputFolder);
  }

  /**
   * `run_serial(input_folder, output_folder)`: for each listed name in
   * listing order, process it when it passes the filter. Creating the output
   * folder is not modelled.
   */
  method RunSerial(env: Env, disk: Disk, listing: seq<string>, inputFolder: string, outputFolder: string)
    modifies disk
    ensures disk.writes == old(disk.writes) + SerialWrites(env, listing, inputFolder, outputFolder)
  {
    ghost var before := disk.writes;
    for i := 0 to |listing|
      invariant disk.writes == before + SerialWrites(env, listing[..i], inputFolder, outputFolder)
    {
      var filename := listing[i];
      SerialWritesStep(env, listing, i, inputFolder, outputFolder);
      if IsImageName(filename) {
        var inp := env.join(inputFolder, filename);
        var out := env.join(outputFolder, filename);
        ProcessImage(env, disk, inp, out);
      }
    }
    assert listing[..|listing|] == listing;
  }

  /**
   * `measure_serial(input_folder, output_folder)`: the timed run writes every
   * output, unlike the parallel measurements. The clock is not modelled.
   */
  method MeasureSerial(env: Env, disk: Disk, inputFolder: string, outputFolder: string, listing: seq<string>)
    modifies disk
    ensures disk.writes == old(disk.writes) + SerialWrites(env, listing, inputFolder, outputFolder)
  {
    RunSerial(env, disk, listing, inputFolder, outputFolder);
  }

  /** The image names whose file loads, in listing order. */
  function LoadedNames(env: Env, names: seq<string>, inputFolder: string): (loaded: seq<string>)
    ensures |loaded| <= |names|
    ensures forall f :: f in loaded ==> f in names && env.imread(env.join(inputFolder, f)).Some?
    ensures forall f :: f in names && env.imread(env.join(inputFolder, f)).Some? ==> f in loaded
  {
    if names == [] then []
    else if env.imread(env.join(inputFolder, names[0])).Some? then [names[0]] + LoadedNames(env, names[1..], inputFolder)
    else LoadedNames(env, names[1..], inputFolder)
  }

  /** Loading a concatenation loads each part: the loaded names keep listing order. */
  lemma {:induction false} LoadedNamesAppend(env: Env, a: seq<string>, b: seq<string>, inputFolder: string)
    ensures LoadedNames(env, a + b, inputFolder) == LoadedNames(env, a, inputFolder) + LoadedNames(env, b, inputFolder)
  {
    if a != [] {
      assert (a + b)[0] == a[0];
      assert (a + b)[1..] == a[1..] + b;
      LoadedNamesAppend(env, a[1..], b, inputFolder);
    } else {
      assert a + b == b;
    }
  }

  /**
   * `run_serial` writes exactly once per image name whose file loads, in
   * listing order, to the output folder under the same name: an unreadable
   * file only drops its own write, and later files are still processed.
   */
  lemma {:induction false} SerialWritesSpec(env: Env, listing: seq<string>, inputFolder: string, outputFolder: string)
    ensures var loaded := LoadedNames(env, ImageNames(listing), inputFolder);
      var writes := SerialWrites(env, listing, inputFolder, outputFolder);
      && |writes| == |loaded|
      && forall k :: 0 <= k < |writes| ==>
           writes[k] == Write(env.join(outputFolder, loaded[k]),
                              FilterChain(env, env.imread(env.join(inputFolder, loaded[k])).value))
  {
    if listing != [] {
      var f, rest := listing[0], listing[1..];
      SerialWritesSpec(env, rest, inputFolder, outputFolder);
      var writes, restWrites := SerialWrites(env, listing, inputFolder, outputFolder), SerialWrites(env, rest, inputFolder, outputFolder);
      var loaded := LoadedNames(env, ImageNames(listing), inputFolder);
      var restLoaded := LoadedNames(env, ImageNames(rest), inputFolder);
      if IsImageName(f) && env.imread(env.join(inputFolder, f)).Some? {
        assert ImageNames(listing) == [f] + ImageNames(rest);
        assert loaded == [f] + restLoaded;
        assert writes == ImageOutcome(env, env.join(inputFolder, f), env.join(outputFolder, f)) + restWrites;
        forall k | 0 < k < |writes|
          ensures writes[k] == Write(env.join(outputFolder, loaded[k]),
                                     FilterChain(env, env.imread(env.join(inputFolder, loaded[k])).value))
        {
          assert writes[k] == restWrites[k - 1] && loaded[k] == restLoaded[k - 1];
        }
      } else {
        assert loaded == restLoaded;
        assert writes == restWrites;
      }
    }
  }

  /**
   * The serial run writes exactly what the parallel task list writes when
   * saving with an output folder, in the same order, provided
   * `os.path.join` gives a non-empty path.
   */
  lemma {:induction false} SerialMatchesTasks(env: Env, listing: seq<string>, inputFolder: string, outputFolder: string)
    requires forall f :: f in listing ==> env.join(outputFolder, f) != ""
    ensures BuildTasks(env, listing, inputFolder, Some(outputFolder), true).Some?
    ensures SerialWrites(env, listing, inputFolder, outputFolder)
         == TaskWrites(env, BuildTasks(env, listing, inputFolder, Some(outputFolder), true).value)
  {
    if listing != [] {
      SerialMatchesTasks(env, listing[1..], inputFolder, outputFolder);
      var f := listing[0];
      var rest := BuildTasks(env, listing[1..], inputFolder, Some(outputFolder), true).value;
      if IsImageName(f) {
        var t := MakeTask(env, inputFolder, outputFolder, true, f);
        assert BuildTasks(env, listing, inputFolder, Some(outputFolder), true).value == [t] + rest;
        assert ([t] + rest)[1..] == rest;
        assert TaskOutcome(env, t) == ImageOutcome(env, env.join(inputFolder, f), env.join(outputFolder, f));
      }
    }
  }
}

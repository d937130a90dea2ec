/**
  `process_images_recursively`: the list of PNG files under the scan root is
  taken once, before any file is touched; then each listed file goes through
  `process_png_file` in list order and the progress counter advances by one
  after each. Nothing is caught in the loop, so the first exception ends the
  whole batch: the files after it are never processed.
 */
module Batch {
  import opened Options
  import opened Paths
  import opened Files
  import opened Relocation
  import opened Pipeline

  /** The filesystem after the batch, the progress counter, and the exception that ended it early, if any. */
  datatype BatchResult<J> = BatchResult(fs: FileSystem<J>, progress: nat, fault: Option<Fault>)

  /** A result seen after `skipped` files had already been counted. */
  function Shift<J>(r: BatchResult<J>, skipped: nat): BatchResult<J> {
    r.(progress := r.progress + skipped)
  }

  /**
    The loop over `files` starting from the filesystem `fs`: the counter
    reaches the number of files exactly when no exception escaped.
   */
  function RunBatch<J>(fs: FileSystem<J>, files: seq<Path>, root: seq<string>, review: seq<string>,
                       tools: Tools<J>): (r: BatchResult<J>)
    ensures r.progress <= |files|
    ensures r.fault.None? <==> r.progress == |files|
    decreases |files|
  {
    if |files| == 0 then BatchResult(fs, 0, None)
    else
      var step := PipelineStep(fs, files[0], root, review, tools);
      if step.1.Raised? then BatchResult(step.0, 0, Some(step.1.fault))
      else Shift(RunBatch(step.0, files[1..], root, review, tools), 1)
  }

  /**
    The loop of `process_images_recursively`. `listing` is what
    `rglob('*.png')` returned before the loop began; the loop walks that
    snapshot, not the changing filesystem.
   */
  method ProcessImagesRecursively<J>(fs0: FileSystem<J>, root: seq<string>, review: seq<string>,
                                     listing: seq<Path>, tools: Tools<J>)
    returns (fs: FileSystem<J>, progress: nat, fault: Option<Fault>)
    ensures BatchResult(fs, progress, fault) == RunBatch(fs0, listing, root, review, tools)
    ensures progress <= |listing|
    ensures fault.None? <==> progress == |listing|
  {
    var pngFiles := listing;
    fs, progress, fault := fs0, 0, None;
    for i := 0 to |pngFiles|
      invariant progress == i
      invariant Shift(RunBatch(fs, pngFiles[i..], root, review, tools), i) == RunBatch(fs0, pngFiles, root, review, tools)
    {
      assert pngFiles[i..][1..] == pngFiles[i + 1..];
      var outcome;
      fs, outcome := ProcessPngFile(fs, pngFiles[i], root, review, tools);
      if outcome.Raised? {
        fault := Some(outcome.fault);
        return;
      }
      progress := progress + 1;
    }
  }

  /**
    Files are processed one after another in list order: running `a + b`
    is running `a`, then, unless `a` ended with an exception, running `b`
    on the filesystem `a` left behind.
   */
  lemma {:induction false} RunBatchAppend<J>(fs: FileSystem<J>, a: seq<Path>, b: seq<Path>, root: seq<string>,
                                             review: seq<string>, tools: Tools<J>)
    ensures var ra := RunBatch(fs, a, root, review, tools);
            RunBatch(fs, a + b, root, review, tools) ==
              if ra.fault.Some? then ra else Shift(RunBatch(ra.fs, b, root, review, tools), |a|)
    decreases |a|
  {
    if |a| == 0 {
      assert a + b == b;
    } else {
      var step := PipelineStep(fs, a[0], root, review, tools);
      assert (a + b)[0] == a[0];
      assert (a + b)[1..] == a[1..] + b;
      if step.1.Processed? {
        RunBatchAppend(step.0, a[1..], b, root, review, tools);
      }
    }
  }

  /**
    No isolation between files: once the file at position `progress` raises,
    the result no longer depends on the files after it.
   */
  lemma AbortIgnoresRest<J>(fs: FileSystem<J>, files: seq<Path>, root: seq<string>, review: seq<string>,
                            tools: Tools<J>)
    requires RunBatch(fs, files, root, review, tools).fault.Some?
    ensures var r := RunBatch(fs, files, root, review, tools);
            r.progress < |files| && RunBatch(fs, files[..r.progress + 1], root, review, tools) == r
  {
    var r := RunBatch(fs, files, root, review, tools);
    var n := r.progress + 1;
    assert files == files[..n] + files[n..];
    RunBatchAppend(fs, files[..n], files[n..], root, review, tools);
  }

  /** Tools that never make `process_png_file` raise: writes, converter launches and `mkdir` all succeed. */
  ghost predicate NeverRaises<J>(tools: Tools<J>) {
    && (forall p :: tools.canWrite(p))
    && (forall p, q :: tools.magick(p, q).Exited?)
    && (forall d :: tools.canMakeDirs(d))
  }

  /** With tools that never raise, the sidecar step succeeds. */
  lemma SidecarStepSucceeds<J>(fs: FileSystem<J>, image: Path, tools: Tools<J>)
    requires NeverRaises(tools)
    ensures WriteSidecar(fs, image, PlanFor(tools, image), tools).1.Ok?
  {
    var plan := PlanFor(tools, image);
    if !plan.NoSidecar? {
      assert tools.canWrite(SidecarPath(fs, image, plan));
    }
  }

  /** With tools that never raise, conversion and relocation of an image under the scan root succeed. */
  lemma ConvertStepSucceeds<J>(fs: FileSystem<J>, image: Path, root: seq<string>, review: seq<string>,
                               tools: Tools<J>, sidecar: Option<Path>)
    requires NeverRaises(tools) && root <= image.dir
    ensures ConvertAndRelocate(fs, image, root, review, tools, sidecar).1.Processed?
  {
    assert tools.magick(image, AvifPath(image)).Exited?;
    assert tools.canMakeDirs(ReviewDestination(image, root, review).value.dir);
  }

  /**
    With tools that never raise and every file under the scan root, the
    batch reaches every listed file and the progress counter ends at the
    number of files.
   */
  lemma {:induction false} BatchCompletes<J>(fs: FileSystem<J>, files: seq<Path>, root: seq<string>,
                                             review: seq<string>, tools: Tools<J>)
    requires NeverRaises(tools)
    requires forall i :: 0 <= i < |files| ==> root <= files[i].dir
    ensures RunBatch(fs, files, root, review, tools).fault.None?
    ensures RunBatch(fs, files, root, review, tools).progress == |files|
    decreases |files|
  {
    if |files| > 0 {
      var image := files[0];
      var written := WriteSidecar(fs, image, PlanFor(tools, image), tools);
      SidecarStepSucceeds(fs, image, tools);
      ConvertStepSucceeds(written.0, image, root, review, tools, written.1.value);
      var step := PipelineStep(fs, image, root, review, tools);
      BatchCompletes(step.0, files[1..], root, review, tools);
    }
  }
}

/**
  `process_png_file` for one image: read its tags, write at most one
  sidecar next to it, convert it to AVIF, and only when the conversion
  reports success move the original to the review folder. Nothing is caught
  here except what the helpers catch themselves, so a failing sidecar
  write, a converter that cannot be launched, or a failing `relative_to` or
  `mkdir` ends the call with an exception (`Raised`).
 */
module Pipeline {
  import opened Options
  import opened Paths
  import opened ExifParse
  import opened UniqueName
  import opened Sidecar
  import opened Files
  import opened Relocation

  /**
    `compress_to_avif` after the converter has run: `CalledProcessError`
    (a non-zero exit) is caught and reported as `false`; a converter that
    cannot be launched raises, which is `None` here.
   */
  function CompressToAvif(run: Run): (ok: Option<bool>)
    ensures ok == Some(true) <==> run == Exited(0)
    ensures ok == Some(false) <==> run.Exited? && run.code != 0
    ensures ok == None <==> run.NotLaunched?
  {
    match run
    case NotLaunched => None
    case Exited(code) => Some(code == 0)
  }

  /** The tags of an image: the parsed ExifTool output, or nothing when the tool could not be run. */
  function MetadataOf<J>(tools: Tools<J>, image: Path): map<string, string> {
    var output := tools.exiftool(image);
    if output.None? then map[] else ParseLines(output.value)
  }

  /**
    An image has a tag `k` exactly when ExifTool could be run on it and one
    of its output lines has a colon and the key `k`.
   */
  lemma MetadataKeys<J>(tools: Tools<J>, image: Path, k: string)
    ensures k in MetadataOf(tools, image) <==>
              && tools.exiftool(image).Some?
              && exists i :: 0 <= i < |tools.exiftool(image).value| && KeyOf(tools.exiftool(image).value[i]) == Some(k)
  {
    if tools.exiftool(image).Some? {
      ParseLinesKeys(tools.exiftool(image).value, k);
    }
  }

  function PlanFor<J>(tools: Tools<J>, image: Path): Plan<J> {
    PlanSidecar(MetadataOf(tools, image), tools.parseJson)
  }

  /** What the sidecar file holds. */
  function Content<J>(plan: Plan<J>): Entry<J>
    requires !plan.NoSidecar?
  {
    match plan
    case JsonSidecar(data) => JsonFile(data)
    case TextSidecar(text) => TextFile(text)
  }

  /** `get_unique_filename(image_path.with_suffix(ext))` over the paths that exist. */
  function SidecarPath<J>(fs: FileSystem<J>, image: Path, plan: Plan<J>): (s: Path)
    requires !plan.NoSidecar?
    ensures s !in fs
    ensures s.dir == image.dir
  {
    UniqueFor(WithSuffix(image, Extension(plan)), fs.Keys)
  }

  /** `image_path.with_suffix('.avif')` */
  function AvifPath(image: Path): (a: Path)
    ensures a.dir == image.dir
    ensures |a.name| >= 5 && a.name[|a.name| - 5..] == ".avif"
  {
    WithSuffix(image, ".avif")
  }

  /**
    The sidecar branch of `process_png_file`: the new filesystem, and the
    sidecar written or the exception. `open(path, "w")` creates the file
    before anything is written, so a failed write may leave an empty or
    partial file at the sidecar path.
   */
  function WriteSidecar<J>(fs: FileSystem<J>, image: Path, plan: Plan<J>, tools: Tools<J>): (r: (FileSystem<J>, Result<Option<Path>>))
    ensures r.1 == Ok(None) <==> plan.NoSidecar?
    ensures r.1 == Ok(None) ==> r.0 == fs
    ensures r.1.Ok? && r.1.value.Some? ==>
              var s := r.1.value.value;
              && s == SidecarPath(fs, image, plan) && tools.canWrite(s)
              && r.0 == fs[s := Content(plan)]
    ensures r.1.Err? ==>
              && !plan.NoSidecar?
              && r.1.fault == SidecarWriteFailed(SidecarPath(fs, image, plan))
              && !tools.canWrite(SidecarPath(fs, image, plan))
              && forall q :: q != SidecarPath(fs, image, plan) ==> (q in r.0 <==> q in fs) && (q in r.0 ==> r.0[q] == fs[q])
  {
    if plan.NoSidecar? then (fs, Ok(None))
    else
      var path := SidecarPath(fs, image, plan);
      if !tools.canWrite(path) then (Leave(fs, path, tools.writeResidue(path)), Err(SidecarWriteFailed(path)))
      else (fs[path := Content(plan)], Ok(Some(path)))
  }

  /**
    The conversion and relocation half of `process_png_file`, after the
    sidecar step has left the filesystem `fs` and reported `sidecar`. A
    converter that exits non-zero may leave a partial file at the AVIF path.
   */
  function ConvertAndRelocate<J>(fs: FileSystem<J>, image: Path, root: seq<string>, review: seq<string>,
                                 tools: Tools<J>, sidecar: Option<Path>): (r: (FileSystem<J>, Outcome))
    ensures r.1.Processed? ==> r.1.sidecar == sidecar
  {
    var avif := AvifPath(image);
    match CompressToAvif(tools.magick(image, avif))
    case None => (fs, Raised(ConverterNotLaunched))
    case Some(false) => (Leave(fs, avif, tools.magickResidue(image, avif)), Processed(sidecar, false, false))
    case Some(true) =>
      var relocation := MoveToReviewFolder(fs[avif := AvifFile(image)], image, root, review, tools);
      if relocation.1.Err? then (relocation.0, Raised(relocation.1.fault))
      else (relocation.0, Processed(sidecar, true, relocation.1.value))
  }

  /** `process_png_file(image, root, review)` as a function of the filesystem before the call. */
  function PipelineStep<J>(fs: FileSystem<J>, image: Path, root: seq<string>, review: seq<string>,
                           tools: Tools<J>): (r: (FileSystem<J>, Outcome))
    ensures r.1.Processed? && r.1.moved ==> r.1.converted
    ensures r.1.Processed? ==> (r.1.sidecar.None? <==> PlanFor(tools, image).NoSidecar?)
  {
    var written := WriteSidecar(fs, image, PlanFor(tools, image), tools);
    if written.1.Err? then (written.0, Raised(written.1.fault))
    else ConvertAndRelocate(written.0, image, root, review, tools, written.1.value)
  }

  /** `process_png_file`, step by step, calling the ExifTool parser and the unique-path loop. */
  method ProcessPngFile<J>(fs: FileSystem<J>, image: Path, root: seq<string>, review: seq<string>,
                           tools: Tools<J>) returns (fs': FileSystem<J>, outcome: Outcome)
    ensures (fs', outcome) == PipelineStep(fs, image, root, review, tools)
    ensures outcome.Processed? && outcome.moved ==> outcome.converted
  {
    var metadata := ExtractMetadata(tools.exiftool(image));
    var plan := PlanSidecar(metadata, tools.parseJson);
    fs' := fs;
    var sidecar: Option<Path> := None;
    if !plan.NoSidecar? {
      var path := UniquePath(WithSuffix(image, Extension(plan)), fs.Keys);
      if !tools.canWrite(path) {
        fs' := Leave(fs', path, tools.writeResidue(path));
        outcome := Raised(SidecarWriteFailed(path));
        return;
      }
      fs' := fs'[path := Content(plan)];
      sidecar := Some(path);
    }
    var avif := WithSuffix(image, ".avif");
    var converted := CompressToAvif(tools.magick(image, avif));
    if converted.None? {
      outcome := Raised(ConverterNotLaunched);
      return;
    }
    if !converted.value {
      fs' := Leave(fs', avif, tools.magickResidue(image, avif));
      outcome := Processed(sidecar, false, false);
      return;
    }
    fs' := fs'[avif := AvifFile(image)];
    var relocation := MoveToReviewFolder(fs', image, root, review, tools);
    var moved := relocation.1;
    fs' := relocation.0;
    if moved.Err? {
      outcome := Raised(moved.fault);
    } else {
      outcome := Processed(sidecar, true, moved.value);
    }
  }

  /** The sidecar lands next to the image, at a fresh path, carries the planned extension, and is never the image. */
  lemma SidecarPathShape<J>(fs: FileSystem<J>, image: Path, plan: Plan<J>)
    requires image.name != "" && !plan.NoSidecar?
    ensures var s := SidecarPath(fs, image, plan);
            && s !in fs && s.dir == image.dir && Suffix(s) == Extension(plan)
            && (IsPngName(image.name) ==> s != image)
  {
    var natural := WithSuffix(image, Extension(plan));
    WithSuffixSplits(image, Extension(plan));
    if natural in fs.Keys {
      UniqueForShape(natural, fs.Keys);
    }
    if IsPngName(image.name) {
      var s := SidecarPath(fs, image, plan);
      EndsWithSuffix(s);
      assert image.name[|image.name| - 1] == ".png"[3];
    }
  }

  /** A name with a suffix ends with the suffix's last character. */
  lemma EndsWithSuffix(p: Path)
    requires Suffix(p) != ""
    ensures p.name[|p.name| - 1] == Suffix(p)[|Suffix(p)| - 1]
  {
    assert p.name == Stem(p) + Suffix(p);
  }

  /** The AVIF file is the image with its suffix replaced by `.avif`: next to it, and never the image itself. */
  lemma AvifPathShape(image: Path)
    requires IsPngName(image.name)
    ensures Stem(AvifPath(image)) == Stem(image) && Suffix(AvifPath(image)) == ".avif"
    ensures AvifPath(image) != image
  {
    WithSuffixSplits(image, ".avif");
    assert image.name[|image.name| - 1] == ".png"[3];
  }

  /**
    The review destination of an image under the scan root is neither its
    AVIF file nor its sidecar: it is the image path itself when the review
    folder is the scan root, and lies in another directory otherwise.
   */
  lemma DestinationApart<J>(fs: FileSystem<J>, image: Path, root: seq<string>, review: seq<string>, plan: Plan<J>)
    requires IsPngName(image.name) && root <= image.dir
    ensures var dest := ReviewDestination(image, root, review).value;
            && dest != AvifPath(image)
            && (!plan.NoSidecar? ==> dest != SidecarPath(fs, image, plan))
  {
    AvifPathShape(image);
    if !plan.NoSidecar? {
      SidecarPathShape(fs, image, plan);
    }
    if review != root {
      DestinationElsewhere(image, root, review);
    } else {
      DestinationKeepsStructure(root, image.dir[|root|..], image.name, review);
      assert image.dir == root + image.dir[|root|..];
    }
  }

  /**
    Conversion gates relocation: nothing is moved unless the converter
    reported success, and when it reports failure only the AVIF path may
    change (a partial output), so the original stays where it was.
   */
  lemma ConversionGatesRelocation<J>(fs: FileSystem<J>, image: Path, root: seq<string>, review: seq<string>,
                                     tools: Tools<J>, sidecar: Option<Path>)
    ensures var (fs', out) := ConvertAndRelocate(fs, image, root, review, tools, sidecar);
            && (out.Processed? && out.moved ==> out.converted && tools.magick(image, AvifPath(image)) == Exited(0))
            && (out.Processed? && !out.converted ==>
                  forall q :: q != AvifPath(image) ==> (q in fs' <==> q in fs) && (q in fs' ==> fs'[q] == fs[q]))
            && (tools.magick(image, AvifPath(image)).Exited? && tools.magick(image, AvifPath(image)).code != 0 ==>
                  out == Processed(sidecar, false, false))
  {
    var avif := AvifPath(image);
    match CompressToAvif(tools.magick(image, avif))
    case None =>
    case Some(false) =>
      assert ConvertAndRelocate(fs, image, root, review, tools, sidecar).0 == Leave(fs, avif, tools.magickResidue(image, avif));
    case Some(true) =>
  }

  /**
    A converted image's AVIF file exists afterwards; the original is moved
    exactly when it existed and the move succeeded, and then its content is
    at the review destination; otherwise it is still at its own path.
   */
  lemma ConvertedThenRelocated<J>(fs: FileSystem<J>, image: Path, root: seq<string>, review: seq<string>,
                                  tools: Tools<J>, sidecar: Option<Path>)
    requires IsPngName(image.name) && root <= image.dir
    ensures var (fs', out) := ConvertAndRelocate(fs, image, root, review, tools, sidecar);
            var dest := ReviewDestination(image, root, review).value;
            && (out.Processed? && out.converted ==>
                  && (out.moved <==> image in fs && tools.canMove(image, dest))
                  && (!out.moved ==> AvifPath(image) in fs' && fs'[AvifPath(image)] == AvifFile(image)))
            && (out.Processed? && out.moved ==>
                  && dest in fs' && fs'[dest] == fs[image]
                  && AvifPath(image) in fs' && fs'[AvifPath(image)] == AvifFile(image)
                  && (review != root ==> image !in fs'))
            && (out.Processed? && !out.moved && image in fs ==> image in fs' && fs'[image] == fs[image])
  {
    var plan: Plan<J> := NoSidecar;
    DestinationApart(fs, image, root, review, plan);
    var avif := AvifPath(image);
    var dest := ReviewDestination(image, root, review).value;
    match CompressToAvif(tools.magick(image, avif))
    case None =>
    case Some(false) =>
      assert ConvertAndRelocate(fs, image, root, review, tools, sidecar).0 == Leave(fs, avif, tools.magickResidue(image, avif));
    case Some(true) =>
      var fs1 := fs[avif := AvifFile(image)];
      assert image in fs1 <==> image in fs;
      assert image in fs ==> fs1[image] == fs[image];
      var relocation := MoveToReviewFolder(fs1, image, root, review, tools);
      assert ConvertAndRelocate(fs, image, root, review, tools, sidecar).0 == relocation.0;
      if relocation.1 == Ok(true) {
        assert relocation.0 == MoveFile(fs1, image, dest);
      }
  }

  /** Conversion and relocation change only the image, its AVIF file and its review destination. */
  lemma ConvertKeepsOthers<J>(fs: FileSystem<J>, image: Path, root: seq<string>, review: seq<string>,
                              tools: Tools<J>, sidecar: Option<Path>, q: Path)
    requires q in fs && q != image && q != AvifPath(image)
    requires ReviewDestination(image, root, review) != Some(q)
    ensures var fs' := ConvertAndRelocate(fs, image, root, review, tools, sidecar).0;
            q in fs' && fs'[q] == fs[q]
  {
  }

  /**
    Conversion and relocation create no path besides the AVIF file and the
    review destination, whatever the outcome.
   */
  lemma ConvertCreatesOnly<J>(fs: FileSystem<J>, image: Path, root: seq<string>, review: seq<string>,
                              tools: Tools<J>, sidecar: Option<Path>)
    ensures var fs' := ConvertAndRelocate(fs, image, root, review, tools, sidecar).0;
            var dest := ReviewDestination(image, root, review);
            fs'.Keys <= fs.Keys + {AvifPath(image)} + (if dest.Some? then {dest.value} else {})
  {
  }

  /**
    At most one sidecar per image, chosen by the `Prompt`-first policy:
    it is written exactly when the policy asks for one, at a path that did
    not exist before, next to the image and with the planned extension, and
    holds the planned content afterwards.
   */
  lemma SidecarWritten<J>(fs: FileSystem<J>, image: Path, root: seq<string>, review: seq<string>,
                          tools: Tools<J>)
    requires IsPngName(image.name) && root <= image.dir
    ensures var (fs', out) := PipelineStep(fs, image, root, review, tools);
            var plan := PlanFor(tools, image);
            out.Processed? ==>
              && (out.sidecar.None? <==> plan.NoSidecar?)
              && (out.sidecar.Some? ==>
                    var s := out.sidecar.value;
                    && s == SidecarPath(fs, image, plan)
                    && s !in fs && s.dir == image.dir && Suffix(s) == Extension(plan)
                    && s in fs' && fs'[s] == Content(plan))
  {
    var plan := PlanFor(tools, image);
    var (fs1, written) := WriteSidecar(fs, image, plan, tools);
    if written.Ok? && written.value.Some? {
      var s := written.value.value;
      SidecarPathShape(fs, image, plan);
      AvifPathShape(image);
      DestinationApart(fs, image, root, review, plan);
      ConvertKeepsOthers(fs1, image, root, review, tools, written.value, s);
    }
  }

  /**
    The original is never lost: after a call that raised nothing, its
    content is either still at its own path (not moved) or at exactly
    `review/<path relative to root>` (moved), and in the second case it has
    left the scan tree unless the review folder is the scan root itself.
   */
  lemma OriginalNeverLost<J>(fs: FileSystem<J>, image: Path, root: seq<string>, review: seq<string>,
                             tools: Tools<J>)
    requires IsPngName(image.name) && root <= image.dir && image in fs
    ensures var (fs', out) := PipelineStep(fs, image, root, review, tools);
            out.Processed? ==>
              if out.moved then
                var dest := Path(review + image.dir[|root|..], image.name);
                && dest in fs' && fs'[dest] == fs[image]
                && (review != root ==> image !in fs')
              else image in fs' && fs'[image] == fs[image]
  {
    var plan := PlanFor(tools, image);
    var (fs1, written) := WriteSidecar(fs, image, plan, tools);
    if written.Ok? {
      if written.value.Some? {
        SidecarPathShape(fs, image, plan);
      }
      assert image in fs1 && fs1[image] == fs[image];
      ConvertedThenRelocated(fs1, image, root, review, tools, written.value);
      assert image.dir == root + image.dir[|root|..];
      DestinationKeepsStructure(root, image.dir[|root|..], image.name, review);
    }
  }

  /**
    A call that raises leaves the original where it was, with its content:
    a failed sidecar write touches only the fresh sidecar path, a converter
    that cannot be launched changes nothing, and a failing `relative_to` or
    `mkdir` comes before the move.
   */
  lemma OriginalKeptWhenRaised<J>(fs: FileSystem<J>, image: Path, root: seq<string>, review: seq<string>,
                                  tools: Tools<J>)
    requires IsPngName(image.name) && image in fs
    ensures var (fs', out) := PipelineStep(fs, image, root, review, tools);
            out.Raised? ==> image in fs' && fs'[image] == fs[image]
  {
    var plan := PlanFor(tools, image);
    var (fs1, written) := WriteSidecar(fs, image, plan, tools);
    if !plan.NoSidecar? {
      SidecarPathShape(fs, image, plan);
    }
    if written.Ok? {
      assert image in fs1 && fs1[image] == fs[image];
      AvifPathShape(image);
      var avif := AvifPath(image);
      match CompressToAvif(tools.magick(image, avif))
      case None =>
      case Some(false) =>
      case Some(true) =>
        assert fs1[avif := AvifFile(image)][image] == fs[image];
    }
  }

  /**
    The call creates no path besides the one sidecar, the AVIF file and the
    review destination, whatever the outcome.
   */
  lemma CreatesOnly<J>(fs: FileSystem<J>, image: Path, root: seq<string>, review: seq<string>, tools: Tools<J>)
    ensures var fs' := PipelineStep(fs, image, root, review, tools).0;
            var plan := PlanFor(tools, image);
            var dest := ReviewDestination(image, root, review);
            fs'.Keys <= fs.Keys + (if plan.NoSidecar? then {} else {SidecarPath(fs, image, plan)})
                                + {AvifPath(image)} + (if dest.Some? then {dest.value} else {})
  {
    var plan := PlanFor(tools, image);
    var (fs1, written) := WriteSidecar(fs, image, plan, tools);
    if written.Ok? {
      ConvertCreatesOnly(fs1, image, root, review, tools, written.value);
    }
  }

  /**
    Every other existing file keeps its content, whatever the outcome: the
    sidecar never overwrites, so only the image, its AVIF path and its
    review destination can change.
   */
  lemma OtherFilesUntouched<J>(fs: FileSystem<J>, image: Path, root: seq<string>, review: seq<string>,
                               tools: Tools<J>, q: Path)
    requires q in fs && q != image && q != AvifPath(image)
    requires ReviewDestination(image, root, review) != Some(q)
    ensures var fs' := PipelineStep(fs, image, root, review, tools).0;
            q in fs' && fs'[q] == fs[q]
  {
    var plan := PlanFor(tools, image);
    var (fs1, written) := WriteSidecar(fs, image, plan, tools);
    if written.Ok? {
      ConvertKeepsOthers(fs1, image, root, review, tools, written.value, q);
    }
  }
}

/**
  The world the per-file pipeline acts on. The filesystem is a finite map
  from the paths that exist to what they hold; directories are not
  represented. Everything the script hands to other programs or to the
  operating system is an oracle in `Tools`.
 */
module Files {
  import opened Options
  import opened Paths

  /** What a file holds, as far as this model tells files apart; `J` is a parsed JSON document. */
  datatype Entry<J> =
    | Blob(id: nat)            // any file the script did not write: the images themselves, for one
    | JsonFile(data: J)        // `json.dump` of a parsed document
    | TextFile(text: string)   // `write` of a raw string
    | AvifFile(source: Path)   // the converter's output for `source`

  type FileSystem<J> = map<Path, Entry<J>>

  /** How a `subprocess.run` ended: an exit status, or no process at all (the program was not found). */
  datatype Run = Exited(code: int) | NotLaunched

  /**
    The outside world, one oracle per call the script makes. A call that
    fails part-way may leave a file behind; the `...Residue` oracles say
    what, with `None` for nothing at all.
   */
  datatype Tools<J> = Tools(
    exiftool: Path -> Option<seq<string>>,      // output lines of `exiftool <path>`; None when running it raised
    parseJson: string -> Option<J>,             // `json.loads`; None is `JSONDecodeError` (no other exception is modelled)
    canWrite: Path -> bool,                     // `open(path, "w")` and the write succeed
    writeResidue: Path -> Option<Entry<J>>,     // what a failed `open`/write leaves at the path (an empty or partial file)
    magick: (Path, Path) -> Run,                // `magick <png> ... <avif>`
    magickResidue: (Path, Path) -> Option<Entry<J>>, // what a converter exiting non-zero leaves at the AVIF path
    canMakeDirs: seq<string> -> bool,           // `mkdir(parents=True, exist_ok=True)` succeeds
    canMove: (Path, Path) -> bool,              // `shutil.move` succeeds for an existing source
    moveResidue: (Path, Path) -> Option<Entry<J>>  // what a failed copy-then-delete `shutil.move` leaves at the destination
  )

  /** The filesystem after a failed call that may have left `residue` at `path`; nothing else changes. */
  function Leave<J>(fs: FileSystem<J>, path: Path, residue: Option<Entry<J>>): (r: FileSystem<J>)
    ensures residue.None? ==> r == fs
    ensures residue.Some? ==> path in r && r[path] == residue.value
    ensures forall q :: q != path ==> (q in r <==> q in fs) && (q in r ==> r[q] == fs[q])
  {
    if residue.None? then fs else fs[path := residue.value]
  }

  /**
    The exceptions that escape `process_png_file` and that this model
    represents; others, such as a `RecursionError` from `json.loads`, are not.
   */
  datatype Fault =
    | SidecarWriteFailed(path: Path)   // `open`/`write` of the sidecar raised
    | ConverterNotLaunched             // `subprocess.run` of `magick` raised something other than `CalledProcessError`
    | NotUnderRoot                     // `relative_to` raised `ValueError`
    | MakeDirsFailed(dir: seq<string>) // `mkdir` raised

  datatype Result<+T> = Ok(value: T) | Err(fault: Fault)

  /** What became of one image, when no exception escaped. */
  datatype Outcome = Processed(sidecar: Option<Path>, converted: bool, moved: bool) | Raised(fault: Fault)

  /** What `rglob('*.png')` matches: a name ending in `.png`. */
  predicate IsPngName(name: string) {
    |name| >= 4 && name[|name| - 4..] == ".png"
  }
}

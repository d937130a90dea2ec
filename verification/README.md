# ComfyUI workflow extractor, modelled in Dafny

`ExtractComfyUIWorkflow.py` walks a folder of PNG images produced by
ComfyUI. For each image it does four things:

- It reads the image's text tags with ExifTool.
- It saves the generation workflow in at most one sidecar file next to the
  image. The sidecar is `.json` when the `Prompt` tag parses as JSON. It is
  `.txt` when the `Prompt` tag does not parse, or when only `Parameters` is
  present.
- It converts the image to AVIF with ImageMagick.
- Only when that conversion succeeds, it moves the original PNG into a review
  folder that mirrors the directory layout under the scan root.

The model covers each of these:

- The ExifTool line parser, as a loop (`ExifParse`).
- The unique-filename search, as a loop (`UniqueName`).
- The sidecar policy (`Sidecar`).
- The per-file pipeline over a filesystem value (`Files`, `Relocation`,
  `Pipeline`).
- The sequential batch loop with its progress counter (`Batch`).

`Paths` models the parts of `pathlib` the script relies on:

- `stem` and `suffix`, with `suffix` starting at the last dot only when that
  dot is neither the first nor the last character of the name;
- `with_suffix` and `with_stem`;
- `relative_to` and the `/` operator.

The filesystem is a finite map from the paths that exist to what they hold.
A file's existence is membership in that map. Everything the script hands to
another program or to the operating system is an oracle in `Files.Tools`:

- the ExifTool output lines;
- `json.loads`;
- whether a write, a `mkdir` or a `shutil.move` succeeds;
- ImageMagick's exit status.

A call that fails part-way may leave a file behind (an empty or partial
sidecar after `open` succeeded, a partial AVIF output, a partial copy from a
cross-filesystem move); what it leaves is an oracle too. A call that raises
is a `Raised` outcome. Some behaviours of the script worth knowing:

- The script writes a `Prompt` that does not parse as JSON, as raw text, to
  a `.txt` file.
- It processes files one at a time, in listing order.
- It catches no exception per file, so the first exception that escapes
  `process_png_file` ends the batch. Examples are a failed sidecar write, a
  converter that cannot be launched, a failed `relative_to` and a failed
  `mkdir`; these four are the ones the model represents.
- `shutil.move` replaces a file already at the destination, and a failed
  move is reported and swallowed.

## Model

| member | source | states |
|---|---|---|
| `Paths.Find` | ExtractComfyUIWorkflow.py:61 | the index of the first occurrence of the character, or -1 exactly when it does not occur |
| `Paths.RFind` | ExtractComfyUIWorkflow.py:77 | the index of the last occurrence of the character (which locates `pathlib`'s suffix), or -1 exactly when it does not occur |
| `Paths.SuffixStart` | ExtractComfyUIWorkflow.py:77 | the suffix of a name starts at a dot that is not the first character and is followed by at least one character and no other dot |
| `Paths.Suffix` | ExtractComfyUIWorkflow.py:77 | `suffix` is empty or a dot followed by at least one non-dot character |
| `Paths.Stem` | ExtractComfyUIWorkflow.py:77 | `stem + suffix` is the whole name, and a non-empty name has a non-empty stem |
| `Paths.WithSuffix` | ExtractComfyUIWorkflow.py:95 | `with_suffix` keeps the directory |
| `Paths.WithStem` | ExtractComfyUIWorkflow.py:77 | `with_stem` keeps the directory |
| `Paths.SplitOfJoin` | ExtractComfyUIWorkflow.py:77 | a name built from a non-empty stem and a dotted suffix splits back into that stem and that suffix |
| `Paths.WithSuffixSplits` | ExtractComfyUIWorkflow.py:95 | `with_suffix(ext)` keeps the stem and has suffix `ext` |
| `Paths.WithStemSplits` | ExtractComfyUIWorkflow.py:77 | `with_stem(s)` has stem `s` and keeps the old suffix when there is one |
| `Paths.RelativeTo` | ExtractComfyUIWorkflow.py:33 | `relative_to(root)` succeeds exactly when the path lies under `root`; root joined with the result gives the path back |
| `Paths.Join` | ExtractComfyUIWorkflow.py:34 | the `/` operator is undone by `relative_to` on the same base |
| `Paths.Decimal` | ExtractComfyUIWorkflow.py:77 | the decimal text of the counter is non-empty and has no dot, so it never changes where the suffix starts |
| `Paths.DecimalInjective` | ExtractComfyUIWorkflow.py:77 | different counters print differently |
| `ExifParse.IsSpace` | ExtractComfyUIWorkflow.py:62 | `str.isspace` for one character: blank, tab, newline and carriage return are whitespace; letters, digits, `:` and `{` are not |
| `ExifParse.LeadingSpace` | ExtractComfyUIWorkflow.py:62 | the length of the maximal whitespace prefix (`str.isspace`) |
| `ExifParse.TrailingSpace` | ExtractComfyUIWorkflow.py:62 | the length of the maximal whitespace suffix |
| `ExifParse.StripBounds` | ExtractComfyUIWorkflow.py:62 | `strip` removes only whitespace, and the kept text neither starts nor ends with whitespace |
| `ExifParse.Strip` | ExtractComfyUIWorkflow.py:62 | `strip()` never lengthens, gives the empty string exactly for all-whitespace text, and otherwise neither starts nor ends with whitespace |
| `ExifParse.ParseLine` | ExtractComfyUIWorkflow.py:60-62 | a line yields an entry exactly when it contains a colon |
| `ExifParse.ParseLineSplitsAtFirstColon` | ExtractComfyUIWorkflow.py:61-62 | `key:value` with a colon-free key gives the stripped key and the stripped value, even when the value holds more colons |
| `ExifParse.LineWithColonSplits` | ExtractComfyUIWorkflow.py:60-61 | every line with a colon is a colon-free key, a colon, and the rest |
| `ExifParse.ParseLinesAppend` | ExtractComfyUIWorkflow.py:59-62 | each further line updates the dictionary built so far with its own entry |
| `ExifParse.ParseLinesKeys` | ExtractComfyUIWorkflow.py:59-62 | a key is in the dictionary exactly when some line contributes it |
| `ExifParse.ParseLinesLastWins` | ExtractComfyUIWorkflow.py:59-62 | the last line contributing a key decides its value |
| `ExifParse.ColonlessLineIgnored` | ExtractComfyUIWorkflow.py:60 | inserting a line without a colon anywhere leaves the dictionary unchanged |
| `ExifParse.ExtractMetadata` | ExtractComfyUIWorkflow.py:49-67 | the loop builds exactly the line-by-line dictionary; an exception from running ExifTool gives the empty dictionary |
| `UniqueName.CandidateInjective` | ExtractComfyUIWorkflow.py:77 | no candidate name is produced for two counter values |
| `UniqueName.TriedGrows` | ExtractComfyUIWorkflow.py:76-78 | each iteration tries a candidate not tried before |
| `UniqueName.FirstFreeFrom` | ExtractComfyUIWorkflow.py:76-78 | the search stops at a free candidate after passing only existing ones, and terminates for every finite set of existing paths |
| `UniqueName.UniqueFor` | ExtractComfyUIWorkflow.py:70-79 | what `get_unique_filename` returns: a path that does not exist, in the request's directory, and the request itself when it is free |
| `UniqueName.UniquePath` | ExtractComfyUIWorkflow.py:70-79 | the loop terminates with a path that does not exist, the request itself when that is free, otherwise the first free candidate |
| `UniqueName.UniqueForIsFirstFree` | ExtractComfyUIWorkflow.py:74-79 | the result is characterised as the smallest free candidate |
| `UniqueName.UniqueForShape` | ExtractComfyUIWorkflow.py:77 | a taken request becomes `<stem>_k<suffix>` in the same directory for some k >= 1 whose earlier candidates all exist, built on the original stem (no stacked counters) |
| `UniqueName.UniqueForAfterCreate` | ExtractComfyUIWorkflow.py:74-79 | once the path handed out exists, the same request yields a different, later candidate |
| `Sidecar.PlanSidecar` | ExtractComfyUIWorkflow.py:89-124 | no sidecar exactly when neither tag exists; JSON exactly when `Prompt` exists and parses, holding the parsed document; otherwise text holding `Prompt` if present, else `Parameters` |
| `Sidecar.Extension` | ExtractComfyUIWorkflow.py:95-115 | `.json` for a JSON sidecar, `.txt` for a text sidecar; either is a suffix `with_suffix` accepts |
| `Sidecar.PromptTakesPriority` | ExtractComfyUIWorkflow.py:90-113 | with `Prompt` present, adding, changing or removing `Parameters` changes nothing |
| `Sidecar.OnlyKnownTagsMatter` | ExtractComfyUIWorkflow.py:89-124 | tag maps that agree on `Prompt` and `Parameters` get the same sidecar |
| `Relocation.ReviewDestination` | ExtractComfyUIWorkflow.py:33-34 | there is a destination exactly when the image is under the scan root |
| `Relocation.MoveFile` | ExtractComfyUIWorkflow.py:40 | after the move the destination holds the source's content, the source is gone, and every other path is unchanged |
| `Relocation.MoveToReviewFolder` | ExtractComfyUIWorkflow.py:29-42 | raises exactly when `relative_to` or `mkdir` fails, and then changes nothing; moves exactly when the image exists and the move succeeds; a failed move is swallowed (`False`), keeps the image, and changes at most the destination |
| `Relocation.DestinationKeepsStructure` | ExtractComfyUIWorkflow.py:31-34 | `root/sub/name` goes to `review/sub/name` |
| `Relocation.DestinationRoundTrip` | ExtractComfyUIWorkflow.py:33-34 | the destination's position under the review folder is the image's position under the scan root |
| `Relocation.DestinationInjective` | ExtractComfyUIWorkflow.py:33-34 | two different images never share a destination |
| `Relocation.DestinationElsewhere` | ExtractComfyUIWorkflow.py:33-37 | unless the review folder is the scan root, the destination is in another directory than the image |
| `Pipeline.CompressToAvif` | ExtractComfyUIWorkflow.py:8-26 | success exactly on exit status 0, `False` exactly on another exit status, an exception exactly when the converter cannot be launched |
| `Pipeline.MetadataKeys` | ExtractComfyUIWorkflow.py:87 | an image has a tag exactly when ExifTool could be run on it and some output line with a colon carries that key |
| `Pipeline.SidecarPath` | ExtractComfyUIWorkflow.py:95-118 | `get_unique_filename(image.with_suffix(ext))`: a path that does not exist, next to the image |
| `Pipeline.AvifPath` | ExtractComfyUIWorkflow.py:127 | next to the image, with a name ending in `.avif` |
| `Pipeline.WriteSidecar` | ExtractComfyUIWorkflow.py:89-124 | nothing is written exactly when the policy asks for no sidecar; otherwise the planned content goes to the fresh sidecar path; a failed write raises and changes at most that path |
| `Pipeline.ConvertAndRelocate` | ExtractComfyUIWorkflow.py:126-130 | the sidecar reported by the first half is passed through unchanged |
| `Pipeline.PipelineStep` | ExtractComfyUIWorkflow.py:82-130 | `process_png_file` never reports a move without a conversion, and reports a sidecar exactly when the policy asks for one |
| `Pipeline.ProcessPngFile` | ExtractComfyUIWorkflow.py:82-130 | the step-by-step procedure produces exactly the pipeline's filesystem and outcome, and never moves an unconverted image |
| `Pipeline.SidecarPathShape` | ExtractComfyUIWorkflow.py:95-118 | the sidecar path is fresh, next to the image, carries the planned extension, and is never the image |
| `Pipeline.AvifPathShape` | ExtractComfyUIWorkflow.py:127 | the AVIF path is the image path with its suffix replaced by `.avif`: same stem, never the image itself |
| `Pipeline.DestinationApart` | ExtractComfyUIWorkflow.py:127-130 | the review destination is never the AVIF path and never the sidecar |
| `Pipeline.ConversionGatesRelocation` | ExtractComfyUIWorkflow.py:128-130 | a moved image was converted with exit status 0; a failed conversion moves nothing and changes at most the AVIF path |
| `Pipeline.ConvertedThenRelocated` | ExtractComfyUIWorkflow.py:127-130 | after a conversion the AVIF file exists; the image moves exactly when it existed and the move succeeded, its content then at the destination; otherwise it stays at its own path |
| `Pipeline.ConvertKeepsOthers` | ExtractComfyUIWorkflow.py:126-130 | an existing file other than the image, its AVIF path and its destination keeps its content through conversion and relocation |
| `Pipeline.ConvertCreatesOnly` | ExtractComfyUIWorkflow.py:126-130 | conversion and relocation create no path besides the AVIF file and the destination, whatever the outcome |
| `Pipeline.SidecarWritten` | ExtractComfyUIWorkflow.py:89-124 | at most one sidecar per image: it is written exactly when the policy asks for one, at a fresh path next to the image, and still holds its content at the end of the call |
| `Pipeline.OriginalNeverLost` | ExtractComfyUIWorkflow.py:126-130 | after a call that raised nothing, the original's content is at its own path or at exactly `review/<relative path>` |
| `Pipeline.OtherFilesUntouched` | ExtractComfyUIWorkflow.py:82-130 | every file other than the image, its AVIF path and its destination keeps its content, whatever the outcome |
| `Pipeline.CreatesOnly` | ExtractComfyUIWorkflow.py:82-130 | a call creates no path besides the one sidecar, the AVIF file and the destination, whatever the outcome |
| `Pipeline.OriginalKeptWhenRaised` | ExtractComfyUIWorkflow.py:82-130 | a call that raises (failed sidecar write, converter not launched, `relative_to` or `mkdir` failing) leaves the original at its own path with its content |
| `Batch.RunBatch` | ExtractComfyUIWorkflow.py:137-144 | the progress counter never exceeds the number of files, and reaches it exactly when no exception escaped |
| `Batch.ProcessImagesRecursively` | ExtractComfyUIWorkflow.py:137-144 | the loop over the snapshot listing computes exactly the batch function's filesystem, progress and exception |
| `Batch.RunBatchAppend` | ExtractComfyUIWorkflow.py:142-144 | files are processed in list order: a prefix runs first, then the rest on the filesystem it left, unless the prefix raised |
| `Batch.AbortIgnoresRest` | ExtractComfyUIWorkflow.py:142-144 | once a file raises, the files after it have no effect on the result |
| `Batch.SidecarStepSucceeds` | ExtractComfyUIWorkflow.py:89-124 | when writes succeed, the sidecar step never raises |
| `Batch.ConvertStepSucceeds` | ExtractComfyUIWorkflow.py:126-130 | when the converter launches and `mkdir` succeeds, an image under the scan root is processed without an exception |
| `Batch.BatchCompletes` | ExtractComfyUIWorkflow.py:137-144 | when no oracle raises, every listed file is processed and the counter ends at the number of files |

## Left out

- The `subprocess.run` calls themselves are oracles. The ImageMagick options (`-quality 90`, `heic:compression=10`) do not change control flow and are not modelled.
- ExifTool's output decoding and `splitlines` happen inside the `exiftool` oracle, which returns the lines.
- JSON is a type parameter with a parsing oracle. The `json.dump` formatting (`indent=4`, `ensure_ascii=False`) is not modelled; a JSON sidecar holds the parsed document.
- All `print` output and the `tqdm` progress bar are left out. The progress counter is kept as a number.
- `main` is left out (lines 147-176). It covers reading both folders with `input`, resolving them, the `is_dir` check and the default review folder `<images>/Review`; scan root and review folder are parameters here.
- `rglob('*.png')` is left out. The listing is a parameter, taken once before the loop.
- Directories are not represented. `mkdir(parents=True, exist_ok=True)` is an oracle that succeeds or raises.
- `pathlib` raising `ValueError` for a path with an empty name is not modelled. Images are files and have names.
- Unicode case rules, symlinks and path normalisation are not modelled. `resolve()` happens in `main`.
- `UniqueName.UniqueForShape`: stated only for requests that have a suffix. `with_stem` still builds `<stem>_k` followed by the suffix, but for a name such as `foo.` (empty suffix) the candidate `foo._1` then splits as stem `foo` and suffix `._1`, so its stem is not `<stem>_k`. The pipeline only asks for `.json` and `.txt` paths.
- What a failed write, conversion or move leaves behind is an oracle (`writeResidue`, `magickResidue`, `moveResidue`); the bytes of a partial file are not modelled.
- `json.loads` raising anything other than `JSONDecodeError` is not modelled. An example is `RecursionError` on a `Prompt` nested deeper than the interpreter's recursion limit; such a `Prompt` ends the batch. `parseJson` either returns a document or reports a decode error, so the model always plans a sidecar when `Prompt` is present.
- The converter's output is not inspected. The script trusts an exit status of 0 alone, and the model then records an AVIF file at the AVIF path. The part of `ConvertedThenRelocated` saying that the AVIF file exists after a successful conversion rests on that assumption, not on anything the script checks.
- `Pipeline.ConvertAndRelocate`: its own contract states only the pass-through of the sidecar. What it does to the filesystem is stated by `ConversionGatesRelocation`, `ConvertedThenRelocated`, `ConvertKeepsOthers` and `ConvertCreatesOnly`.
- The default review folder lies inside the scan root, so a later run lists the files an earlier run moved there and processes them again. `shutil.move` replaces a file already at a destination. The model states this as written (`MoveFile` overwrites) and proves no-loss only per call (`OriginalNeverLost`).

/**
  `move_to_review_folder`: the original is moved to the review folder at
  the same position relative to the review folder as it had relative to the
  scan root. A failed `relative_to` or `mkdir` raises; a failed move is
  reported and swallowed, and the file stays where it was.
 */
module Relocation {
  import opened Options
  import opened Paths
  import opened Files

  /** `review_folder / file_path.relative_to(root_folder)`; `None` when `relative_to` raises. */
  function ReviewDestination(image: Path, root: seq<string>, review: seq<string>): (d: Option<Path>)
    ensures d.Some? <==> root <= image.dir
  {
    match RelativeTo(image, root)
    case None => None
    case Some(rel) => Some(Join(review, rel))
  }

  /** `shutil.move` when it succeeds: the entry leaves `src` and replaces whatever was at `dst`. */
  function MoveFile<J>(fs: FileSystem<J>, src: Path, dst: Path): (r: FileSystem<J>)
    requires src in fs
    ensures dst in r && r[dst] == fs[src]
    ensures src != dst ==> src !in r
    ensures forall q :: q != src && q != dst ==> (q in r <==> q in fs) && (q in r ==> r[q] == fs[q])
  {
    (fs - {src})[dst := fs[src]]
  }

  /**
    `move_to_review_folder` over the filesystem `fs`: the new filesystem, and
    whether the file was moved, or the exception that escaped. Only
    `relative_to` and `mkdir` raise; a failed move is reported and swallowed.
    A move across filesystems copies, then deletes the source, so a failure
    part-way may leave a partial copy at the destination while the source
    stays where it was.
   */
  function MoveToReviewFolder<J>(fs: FileSystem<J>, image: Path, root: seq<string>, review: seq<string>,
                                 tools: Tools<J>): (r: (FileSystem<J>, Result<bool>))
    ensures r.1.Err? <==> !(root <= image.dir) || !tools.canMakeDirs(ReviewDestination(image, root, review).value.dir)
    ensures r.1.Err? ==> r.0 == fs
    ensures r.1 == Ok(true) <==>
              r.1.Ok? && image in fs && tools.canMove(image, ReviewDestination(image, root, review).value)
    ensures r.1 == Ok(true) ==> r.0 == MoveFile(fs, image, ReviewDestination(image, root, review).value)
    ensures r.1 == Ok(false) ==>
              var dest := ReviewDestination(image, root, review).value;
              && (image in fs ==> image in r.0 && r.0[image] == fs[image])
              && (forall q :: q != dest ==> (q in r.0 <==> q in fs) && (q in r.0 ==> r.0[q] == fs[q]))
  {
    match ReviewDestination(image, root, review)
    case None => (fs, Err(NotUnderRoot))
    case Some(dest) =>
      if !tools.canMakeDirs(dest.dir) then (fs, Err(MakeDirsFailed(dest.dir)))
      else if image !in fs then (fs, Ok(false))
      else if tools.canMove(image, dest) then (MoveFile(fs, image, dest), Ok(true))
      else if dest == image then (fs, Ok(false))
      else (Leave(fs, dest, tools.moveResidue(image, dest)), Ok(false))
  }

  /** A file at `root/sub/name` goes to exactly `review/sub/name`. */
  lemma DestinationKeepsStructure(root: seq<string>, sub: seq<string>, name: string, review: seq<string>)
    ensures ReviewDestination(Path(root + sub, name), root, review) == Some(Path(review + sub, name))
  {
    assert (root + sub)[|root|..] == sub;
  }

  /** The destination sits under the review folder, at the image's position relative to the scan root. */
  lemma DestinationRoundTrip(image: Path, root: seq<string>, review: seq<string>)
    requires root <= image.dir
    ensures var dest := ReviewDestination(image, root, review).value;
            RelativeTo(dest, review) == RelativeTo(image, root)
  {
  }

  /** Two different images under the scan root never share a destination. */
  lemma DestinationInjective(a: Path, b: Path, root: seq<string>, review: seq<string>)
    requires ReviewDestination(a, root, review).Some?
    requires ReviewDestination(a, root, review) == ReviewDestination(b, root, review)
    ensures a == b
  {
    var ra, rb := RelativeTo(a, root).value, RelativeTo(b, root).value;
    assert Join(review, ra) == Join(review, rb);
    assert RelativeTo(Join(review, ra), review) == Some(ra);
    assert RelativeTo(Join(review, rb), review) == Some(rb);
  }

  /**
    Unless the review folder is the scan root itself, the destination is in a
    different directory from the image, so it differs from every file the
    pipeline writes next to the image.
   */
  lemma DestinationElsewhere(image: Path, root: seq<string>, review: seq<string>)
    requires root <= image.dir && review != root
    ensures ReviewDestination(image, root, review).value.dir != image.dir
  {
    var sub := image.dir[|root|..];
    assert image.dir == root + sub;
    var dest := ReviewDestination(image, root, review).value;
    assert dest.dir == review + sub;
  }
}

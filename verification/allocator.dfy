/**
  `get_unique_filename`: the filesystem is the finite set of paths that
  exist. The requested path is returned when it is free; otherwise the
  candidates `<stem>_1<suffix>`, `<stem>_2<suffix>`, ... built from the
  ORIGINAL stem are tried in order and the first free one is returned.
 */
module UniqueName {
  import opened Paths

  /** The k-th path tried: the request itself for k = 0, otherwise `with_stem(f"{stem}_{k}")`. */
  function Candidate(p: Path, k: nat): Path {
    if k == 0 then p else WithStem(p, Stem(p) + "_" + Decimal(k))
  }

  /** The candidates tried before the k-th one. */
  function Tried(p: Path, k: nat): set<Path> {
    set j | 0 <= j < k :: Candidate(p, j)
  }

  /** Equal texts with the same head and tail have the same middle. */
  lemma SameMiddle(head: string, x: string, y: string, tail: string)
    requires head + x + tail == head + y + tail
    ensures x == y
  {
    assert |x| == |y|;
    assert x == (head + x + tail)[|head|..|head| + |x|];
    assert y == (head + y + tail)[|head|..|head| + |y|];
  }

  /** No candidate is tried twice, so the search cannot cycle. */
  lemma CandidateInjective(p: Path, j: nat, k: nat)
    requires Candidate(p, j) == Candidate(p, k)
    ensures j == k
  {
    var stem, suffix := Stem(p), Suffix(p);
    if j != 0 && k != 0 {
      assert (stem + "_" + Decimal(j)) + suffix == (stem + "_" + Decimal(k)) + suffix;
      assert stem + "_" + Decimal(j) == (stem + "_") + Decimal(j);
      assert stem + "_" + Decimal(k) == (stem + "_") + Decimal(k);
      SameMiddle(stem + "_", Decimal(j), Decimal(k), suffix);
      DecimalInjective(j, k);
    }
  }

  lemma TriedGrows(p: Path, k: nat)
    ensures Tried(p, k + 1) == Tried(p, k) + {Candidate(p, k)}
    ensures Candidate(p, k) !in Tried(p, k)
  {
    assert Tried(p, k + 1) == Tried(p, k) + {Candidate(p, k)};
    if Candidate(p, k) in Tried(p, k) {
      var j :| 0 <= j < k && Candidate(p, j) == Candidate(p, k);
      CandidateInjective(p, j, k);
    }
  }

  /**
    Index of the first free candidate from the k-th on. Each step removes one
    more existing path from those still to be passed, so the search ends for
    every finite `existing`.
   */
  function FirstFreeFrom(p: Path, existing: set<Path>, k: nat): (n: nat)
    ensures n >= k
    ensures Candidate(p, n) !in existing
    ensures forall j :: k <= j < n ==> Candidate(p, j) in existing
    decreases existing - Tried(p, k)
  {
    if Candidate(p, k) !in existing then k
    else
      TriedGrows(p, k);
      FirstFreeFrom(p, existing, k + 1)
  }

  /** The path `get_unique_filename(p)` returns when `existing` is the set of paths on disk. */
  function UniqueFor(p: Path, existing: set<Path>): (r: Path)
    ensures r !in existing
    ensures p !in existing ==> r == p
    ensures r.dir == p.dir
  {
    Candidate(p, FirstFreeFrom(p, existing, 0))
  }

  /**
    The loop of `get_unique_filename`; `p in existing` stands for
    `Path.exists()`.
   */
  method UniquePath(p: Path, existing: set<Path>) returns (r: Path)
    ensures r !in existing
    ensures p !in existing ==> r == p
    ensures r == UniqueFor(p, existing)
  {
    var counter: nat := 1;
    r := p;
    while r in existing
      invariant counter >= 1
      invariant r == Candidate(p, counter - 1)
      invariant forall j :: 0 <= j < counter - 1 ==> Candidate(p, j) in existing
      decreases existing - Tried(p, counter - 1)
    {
      TriedGrows(p, counter - 1);
      r := WithStem(p, Stem(p) + "_" + Decimal(counter));
      counter := counter + 1;
    }
  }

  /**
    The result is the smallest free candidate: it is free, and every earlier
    candidate exists. Any path with that description is the result, so two
    calls over the same set of paths agree.
   */
  lemma {:induction false} UniqueForIsFirstFree(p: Path, existing: set<Path>, n: nat)
    requires Candidate(p, n) !in existing
    requires forall j :: 0 <= j < n ==> Candidate(p, j) in existing
    ensures UniqueFor(p, existing) == Candidate(p, n)
  {
  }

  /**
    A taken request yields `<stem>_k<suffix>` in the same directory, for some
    k >= 1, with the counter always applied to the request's own stem.
   */
  lemma UniqueForShape(p: Path, existing: set<Path>)
    requires p in existing && Suffix(p) != ""
    ensures var r := UniqueFor(p, existing);
            && r.dir == p.dir && Suffix(r) == Suffix(p)
            && exists k: nat :: && 1 <= k && r == Candidate(p, k) && Stem(r) == Stem(p) + "_" + Decimal(k)
                               && forall j :: 0 <= j < k ==> Candidate(p, j) in existing
  {
    var k := FirstFreeFrom(p, existing, 0);
    assert k >= 1;
    WithStemSplits(p, Stem(p) + "_" + Decimal(k));
  }

  /**
    Writing the path just handed out and asking again for the same request
    gives a different, later candidate: sidecars for the same image never
    overwrite one another.
   */
  lemma {:induction false} UniqueForAfterCreate(p: Path, existing: set<Path>)
    ensures var first := UniqueFor(p, existing);
            var second := UniqueFor(p, existing + {first});
            second != first && FirstFreeFrom(p, existing + {first}, 0) > FirstFreeFrom(p, existing, 0)
  {
  }
}

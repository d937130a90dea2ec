/**
  Paths as `pathlib` sees them: the directory components, then the final name.
  The name splits into a stem and a suffix at its last dot, following the rule
  of `PurePath.suffix`: the dot counts only when it is neither the first nor
  the last character of the name.
 */
module Paths {
  import opened Options

  datatype Path = Path(dir: seq<string>, name: string)

  /** `str.find`: index of the first occurrence of `c`, or -1. */
  function Find(s: string, c: char): (r: int)
    ensures -1 <= r < |s|
    ensures r == -1 <==> c !in s
    ensures r >= 0 ==> s[r] == c && c !in s[..r]
  {
    FindFrom(s, c, 0)
  }

  /** The first occurrence of `c` at index `i` or later, or -1. */
  function FindFrom(s: string, c: char, i: nat): (r: int)
    requires i <= |s|
    ensures r == -1 || i <= r < |s|
    ensures r == -1 ==> forall k :: i <= k < |s| ==> s[k] != c
    ensures r >= 0 ==> s[r] == c && forall k :: i <= k < r ==> s[k] != c
    decreases |s| - i
  {
    if i == |s| then -1
    else if s[i] == c then i
    else FindFrom(s, c, i + 1)
  }

  /** `str.rfind`: index of the last occurrence of `c`, or -1. */
  function RFind(s: string, c: char): (r: int)
    ensures -1 <= r < |s|
    ensures r == -1 <==> c !in s
    ensures r >= 0 ==> s[r] == c && c !in s[r + 1..]
  {
    RFindBelow(s, c, |s|)
  }

  /** The last occurrence of `c` before index `n`, or -1. */
  function RFindBelow(s: string, c: char, n: nat): (r: int)
    requires n <= |s|
    ensures -1 <= r < n
    ensures r == -1 ==> forall k :: 0 <= k < n ==> s[k] != c
    ensures r >= 0 ==> s[r] == c && forall k :: r < k < n ==> s[k] != c
  {
    if n == 0 then -1
    else if s[n - 1] == c then n - 1
    else RFindBelow(s, c, n - 1)
  }

  /** What a non-empty suffix looks like: a dot, then at least one character, and no other dot. */
  predicate IsDottedSuffix(s: string) {
    |s| >= 2 && s[0] == '.' && '.' !in s[1..]
  }

  /** Where the suffix of `name` starts (`|name|` when there is none). */
  function SuffixStart(name: string): (i: nat)
    ensures i <= |name|
    ensures name != "" ==> i > 0
    ensures i < |name| ==> IsDottedSuffix(name[i..])
  {
    var d := RFind(name, '.');
    if 0 < d < |name| - 1 then d else |name|
  }

  /** `PurePath.suffix` */
  function Suffix(p: Path): (s: string)
    ensures s == "" || IsDottedSuffix(s)
  {
    p.name[SuffixStart(p.name)..]
  }

  /** `PurePath.stem` */
  function Stem(p: Path): (s: string)
    ensures s + Suffix(p) == p.name
    ensures p.name != "" ==> s != ""
  {
    var i := SuffixStart(p.name);
    assert p.name == p.name[..i] + p.name[i..];
    p.name[..i]
  }

  /** `PurePath.with_suffix`: the name becomes the old stem followed by `suffix`. */
  function WithSuffix(p: Path, suffix: string): (r: Path)
    ensures r.dir == p.dir
  {
    Path(p.dir, Stem(p) + suffix)
  }

  /** `PurePath.with_stem`: the name becomes `stem` followed by the old suffix. */
  function WithStem(p: Path, stem: string): (r: Path)
    ensures r.dir == p.dir
  {
    Path(p.dir, stem + Suffix(p))
  }

  /** A name made of a non-empty stem and a dotted suffix splits back into exactly those two parts. */
  lemma SplitOfJoin(dir: seq<string>, stem: string, suffix: string)
    requires stem != "" && IsDottedSuffix(suffix)
    ensures Stem(Path(dir, stem + suffix)) == stem
    ensures Suffix(Path(dir, stem + suffix)) == suffix
  {
    var name := stem + suffix;
    assert name[|stem|] == '.';
    assert SuffixStart(name) == |stem|;
    assert name[..|stem|] == stem;
    assert name[|stem|..] == suffix;
  }

  /** `with_suffix` keeps the stem and installs the requested suffix. */
  lemma WithSuffixSplits(p: Path, suffix: string)
    requires p.name != "" && IsDottedSuffix(suffix)
    ensures Stem(WithSuffix(p, suffix)) == Stem(p)
    ensures Suffix(WithSuffix(p, suffix)) == suffix
  {
    SplitOfJoin(p.dir, Stem(p), suffix);
  }

  /** `with_stem` installs the requested stem and keeps the suffix, when there is one. */
  lemma WithStemSplits(p: Path, stem: string)
    requires stem != "" && Suffix(p) != ""
    ensures Stem(WithStem(p, stem)) == stem
    ensures Suffix(WithStem(p, stem)) == Suffix(p)
  {
    SplitOfJoin(p.dir, stem, Suffix(p));
  }

  /** `PurePath.relative_to(root)`: `None` stands for the `ValueError` raised when `p` is not under `root`. */
  function RelativeTo(p: Path, root: seq<string>): (r: Option<Path>)
    ensures r.Some? <==> root <= p.dir
    ensures r.Some? ==> r.value.name == p.name && root + r.value.dir == p.dir
  {
    if root <= p.dir then Some(Path(p.dir[|root|..], p.name)) else None
  }

  /** The `/` operator: a relative path appended to a base directory. */
  function Join(base: seq<string>, rel: Path): (r: Path)
    ensures RelativeTo(r, base) == Some(rel)
  {
    assert (base + rel.dir)[|base|..] == rel.dir;
    Path(base + rel.dir, rel.name)
  }

  function Digit(d: nat): (c: char)
    requires d < 10
    ensures '0' <= c <= '9'
  {
    (48 + d) as char
  }

  /** `str(n)` for a natural number: its decimal digits, most significant first. */
  function Decimal(n: nat): (s: string)
    ensures 1 <= |s|
    ensures n >= 10 ==> |s| >= 2
    ensures '.' !in s
    decreases n
  {
    if n < 10 then [Digit(n)] else Decimal(n / 10) + [Digit(n % 10)]
  }

  /** Distinct numbers print differently. */
  lemma {:induction false} DecimalInjective(a: nat, b: nat)
    requires Decimal(a) == Decimal(b)
    ensures a == b
    decreases a
  {
    if a >= 10 && b >= 10 {
      var sa, sb := Decimal(a), Decimal(b);
      assert sa[|sa| - 1] == Digit(a % 10) && sb[|sb| - 1] == Digit(b % 10);
      assert Decimal(a / 10) == sa[..|sa| - 1] == sb[..|sb| - 1] == Decimal(b / 10);
      DecimalInjective(a / 10, b / 10);
    } else if a < 10 && b < 10 {
      assert Decimal(a)[0] == Digit(a);
    }
  }
}

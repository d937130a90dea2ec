/**
  The ExifTool text parser of `extract_metadata_with_exiftool`: every output
  line of the form `Key : Value` becomes one dictionary entry. The key is the
  text before the first colon, the value everything after it, both with
  surrounding whitespace removed; lines without a colon are skipped, and a key
  seen again overwrites the earlier value.
 */
module ExifParse {
  import opened Options
  import opened Paths

  /** `str.isspace` for one character: the Unicode whitespace Python recognises. */
  predicate IsSpace(c: char): (b: bool)
    ensures c == ' ' || c == '\t' || c == '\n' || c == '\r' ==> b
    ensures '0' <= c <= '9' || 'A' <= c <= 'Z' || 'a' <= c <= 'z' || c == ':' || c == '{' ==> !b
  {
    || ('\U{9}' <= c <= '\U{D}')
    || ('\U{1C}' <= c <= '\U{20}')
    || c == '\U{85}' || c == '\U{A0}' || c == '\U{1680}'
    || ('\U{2000}' <= c <= '\U{200A}')
    || c == '\U{2028}' || c == '\U{2029}' || c == '\U{202F}' || c == '\U{205F}' || c == '\U{3000}'
  }

  /** Length of the longest all-whitespace prefix of `s`. */
  function LeadingSpace(s: string): (k: nat)
    ensures k <= |s|
    ensures forall i :: 0 <= i < k ==> IsSpace(s[i])
    ensures k < |s| ==> !IsSpace(s[k])
  {
    if |s| == 0 || !IsSpace(s[0]) then 0 else 1 + LeadingSpace(s[1..])
  }

  /** Length of the longest all-whitespace suffix of `s`. */
  function TrailingSpace(s: string): (k: nat)
    ensures k <= |s|
    ensures forall i :: |s| - k <= i < |s| ==> IsSpace(s[i])
    ensures k < |s| ==> !IsSpace(s[|s| - 1 - k])
  {
    if |s| == 0 || !IsSpace(s[|s| - 1]) then 0 else 1 + TrailingSpace(s[..|s| - 1])
  }

  /**
    Where `str.strip()` cuts `s`: everything before the first bound and from
    the second bound on is whitespace, and the part kept neither starts nor
    ends with whitespace.
   */
  function StripBounds(s: string): (b: (nat, nat))
    ensures b.0 <= b.1 <= |s|
    ensures forall k :: 0 <= k < b.0 ==> IsSpace(s[k])
    ensures forall k :: b.1 <= k < |s| ==> IsSpace(s[k])
    ensures b.0 < b.1 ==> !IsSpace(s[b.0]) && !IsSpace(s[b.1 - 1])
  {
    var i := LeadingSpace(s);
    var t := s[i..];
    var j := i + |t| - TrailingSpace(t);
    assert forall k :: j <= k < |s| ==> s[k] == t[k - i];
    (i, j)
  }

  /** `str.strip()` */
  function Strip(s: string): (r: string)
    ensures |r| <= |s|
    ensures r == "" <==> forall k :: 0 <= k < |s| ==> IsSpace(s[k])
    ensures r != "" ==> !IsSpace(r[0]) && !IsSpace(r[|r| - 1])
  {
    var b := StripBounds(s);
    s[b.0..b.1]
  }

  /**
    One output line: `None` when the line has no colon, otherwise the
    stripped text before the first colon and the stripped text after it
    (`line.split(":", 1)`).
   */
  function ParseLine(line: string): (r: Option<(string, string)>)
    ensures r.None? <==> ':' !in line
  {
    var c := Find(line, ':');
    if c < 0 then None else Some((Strip(line[..c]), Strip(line[c + 1..])))
  }

  /**
    The dictionary the loop has built after `lines`: each line is applied in
    order, a later entry replacing an earlier one under the same key.
   */
  function ParseLines(lines: seq<string>): (m: map<string, string>)
    decreases |lines|
  {
    if |lines| == 0 then map[]
    else
      var m := ParseLines(lines[..|lines| - 1]);
      var entry := ParseLine(lines[|lines| - 1]);
      if entry.None? then m else m[entry.value.0 := entry.value.1]
  }

  /** The key a line contributes, if any. */
  function KeyOf(line: string): Option<string> {
    match ParseLine(line)
    case None => None
    case Some((k, _)) => Some(k)
  }

  /** Splitting happens at the FIRST colon, so the value keeps any later colons. */
  lemma ParseLineSplitsAtFirstColon(key: string, value: string)
    requires ':' !in key
    ensures ParseLine(key + ":" + value) == Some((Strip(key), Strip(value)))
  {
    var line := key + ":" + value;
    assert line[|key|] == ':';
    assert line[..|key|] == key;
    assert line[|key| + 1..] == value;
    assert Find(line, ':') == |key|;
  }

  /** Every line with a colon is such a key/colon/value line. */
  lemma LineWithColonSplits(line: string)
    requires ':' in line
    ensures var c := Find(line, ':');
            line == line[..c] + ":" + line[c + 1..] && ':' !in line[..c]
  {
    var c := Find(line, ':');
    assert line == line[..c] + [line[c]] + line[c + 1..];
  }

  /** The dictionary after `line` is `m` updated with that line's entry, if it has one. */
  function Apply(m: map<string, string>, line: string): map<string, string> {
    var e := ParseLine(line);
    if e.None? then m else m[e.value.0 := e.value.1]
  }

  /** A line adds its own key, if any, and removes none. */
  lemma ApplyKeys(m: map<string, string>, line: string, k: string)
    ensures k in Apply(m, line) <==> k in m || KeyOf(line) == Some(k)
  {
  }

  /** A line's own entry overrides; a line with another key, or none, leaves the value alone. */
  lemma ApplyValue(m: map<string, string>, line: string, k: string)
    ensures KeyOf(line) == Some(k) ==> k in Apply(m, line) && Apply(m, line)[k] == ParseLine(line).value.1
    ensures KeyOf(line) != Some(k) && k in m ==> k in Apply(m, line) && Apply(m, line)[k] == m[k]
  {
  }

  /** Appending a line applies its entry to the dictionary built so far. */
  lemma ParseLinesAppend(lines: seq<string>, line: string)
    ensures ParseLines(lines + [line]) == Apply(ParseLines(lines), line)
  {
    assert (lines + [line])[..|lines|] == lines;
  }

  /** A key is in the dictionary exactly when some line contributes it. */
  lemma {:induction false} ParseLinesKeys(lines: seq<string>, k: string)
    ensures k in ParseLines(lines) <==> exists i :: 0 <= i < |lines| && KeyOf(lines[i]) == Some(k)
    decreases |lines|
  {
    if |lines| > 0 {
      var last := |lines| - 1;
      var init := lines[..last];
      assert lines == init + [lines[last]];
      ParseLinesAppend(init, lines[last]);
      ApplyKeys(ParseLines(init), lines[last], k);
      ParseLinesKeys(init, k);
      if k in ParseLines(init) {
        var i :| 0 <= i < |init| && KeyOf(init[i]) == Some(k);
        assert lines[i] == init[i];
      }
      if exists i :: 0 <= i < |lines| && KeyOf(lines[i]) == Some(k) {
        var i :| 0 <= i < |lines| && KeyOf(lines[i]) == Some(k);
        if i < last {
          assert init[i] == lines[i];
        }
      }
    }
  }

  /** The last line that contributes a key decides its value. */
  lemma {:induction false} ParseLinesLastWins(lines: seq<string>, i: nat, k: string, v: string)
    requires i < |lines| && ParseLine(lines[i]) == Some((k, v))
    requires forall j :: i < j < |lines| ==> KeyOf(lines[j]) != Some(k)
    ensures k in ParseLines(lines) && ParseLines(lines)[k] == v
    decreases |lines|
  {
    var last := |lines| - 1;
    var init := lines[..last];
    assert lines == init + [lines[last]];
    ParseLinesAppend(init, lines[last]);
    ApplyValue(ParseLines(init), lines[last], k);
    if i < last {
      forall j | i < j < |init| ensures KeyOf(init[j]) != Some(k) {
        assert init[j] == lines[j];
      }
      assert init[i] == lines[i];
      ParseLinesLastWins(init, i, k, v);
    }
  }

  /** A line without a colon contributes nothing, wherever it stands. */
  lemma {:induction false} ColonlessLineIgnored(before: seq<string>, line: string, after: seq<string>)
    requires ':' !in line
    ensures ParseLines(before + [line] + after) == ParseLines(before + after)
    decreases |after|
  {
    if |after| == 0 {
      assert before + [line] + after == before + [line];
      assert before + after == before;
      ParseLinesAppend(before, line);
    } else {
      var init := after[..|after| - 1];
      var x := after[|after| - 1];
      calc {
        ParseLines(before + [line] + after);
        { assert before + [line] + after == (before + [line] + init) + [x]; }
        ParseLines((before + [line] + init) + [x]);
        { ParseLinesAppend(before + [line] + init, x); }
        Apply(ParseLines(before + [line] + init), x);
        { ColonlessLineIgnored(before, line, init); }
        Apply(ParseLines(before + init), x);
        { ParseLinesAppend(before + init, x); }
        ParseLines((before + init) + [x]);
        { assert before + after == (before + init) + [x]; }
        ParseLines(before + after);
      }
    }
  }

  /**
    `extract_metadata_with_exiftool` after the tool has run. `output` is the
    tool's standard output already split into lines, or `None` when running
    the tool raised (the exception is caught and an empty dictionary returned).
   */
  method ExtractMetadata(output: Option<seq<string>>) returns (metadata: map<string, string>)
    ensures output.None? ==> metadata == map[]
    ensures output.Some? ==> metadata == ParseLines(output.value)
  {
    metadata := map[];
    if output.None? {
      return;
    }
    var lines := output.value;
    for n := 0 to |lines|
      invariant metadata == ParseLines(lines[..n])
    {
      var line := lines[n];
      assert lines[..n + 1] == lines[..n] + [line];
      ParseLinesAppend(lines[..n], line);
      if ':' in line {
        var colon := Find(line, ':');
        var key, value := line[..colon], line[colon + 1..];
        assert ParseLine(line) == Some((Strip(key), Strip(value)));
        metadata := metadata[Strip(key) := Strip(value)];
      }
    }
    assert lines[..|lines|] == lines;
  }
}

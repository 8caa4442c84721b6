/**
 * The `.aiignore` file: its parsing into patterns and the decision whether
 * a path the agent wants to touch is hidden by it. The file's content is a
 * parameter (`None` when it is missing or cannot be read); the working
 * directory is a list of plain segments below the root.
 */
module Aiignore {
  import opened Wrappers
  import opened Strings
  import opened PosixPath

  const IgnoreFileName: string := ".aiignore"

  // ---------------------------------------------------------------------
  // Parsing the file
  // ---------------------------------------------------------------------

  /**
   * `content.split(/\r?\n/)`: split at line feeds; a carriage return right
   * before a line feed belongs to the separator.
   */
  function SplitLines(content: string): (r: seq<string>)
    ensures |r| == |Split(content, '\n')|
  {
    var pieces := Split(content, '\n');
    seq(|pieces|, i requires 0 <= i < |pieces| =>
      if i < |pieces| - 1 && EndsWith(pieces[i], "\r") then pieces[i][..|pieces[i]| - 1] else pieces[i])
  }

  /** A trimmed line is a pattern unless it is empty or a `#` comment. */
  predicate IsPatternLine(line: string) {
    line != "" && !StartsWith(line, "#")
  }

  /** One trailing `/` or `\` is dropped from a pattern. */
  function StripSeparator(pattern: string): (r: string)
    ensures r == pattern || |r| == |pattern| - 1
    ensures forall i :: 0 <= i < |r| ==> r[i] == pattern[i]
    ensures !EndsWith(pattern, "/") && !EndsWith(pattern, "\\") ==> r == pattern
    ensures EndsWith(pattern, "/") || EndsWith(pattern, "\\") ==> r + [pattern[|pattern| - 1]] == pattern
  {
    if EndsWith(pattern, "/") || EndsWith(pattern, "\\") then pattern[..|pattern| - 1] else pattern
  }

  /** The pattern one line of the file contributes, if any. */
  function LinePattern(line: string): (r: seq<string>)
    ensures |r| <= 1
    ensures !IsPatternLine(Trim(line)) ==> r == []
    ensures IsPatternLine(Trim(line)) ==> r == [StripSeparator(Trim(line))]
  {
    var t := Trim(line);
    if IsPatternLine(t) then [StripSeparator(t)] else []
  }

  /** The trim, filter and strip pipeline over the lines of the file. */
  function PatternsOf(lines: seq<string>): (r: seq<string>)
    ensures |r| <= |lines|
  {
    if |lines| == 0 then [] else LinePattern(lines[0]) + PatternsOf(lines[1..])
  }

  /** `loadAiIgnore`: the patterns of the file, none when it is missing or unreadable. */
  function ParsePatterns(file: Option<string>): (r: seq<string>)
    ensures file.None? ==> r == []
  {
    match file
    case None => []
    case Some(content) => PatternsOf(SplitLines(content))
  }

  lemma {:induction false} PatternsOfCons(line: string, rest: seq<string>)
    ensures PatternsOf([line] + rest) == LinePattern(line) + PatternsOf(rest)
  {
    assert ([line] + rest)[1..] == rest;
  }

  /** A pattern of the file is exactly a pattern of one of its lines. */
  lemma {:induction false} PatternsFromLines(lines: seq<string>, p: string)
    ensures p in PatternsOf(lines) <==> exists i :: 0 <= i < |lines| && p in LinePattern(lines[i])
    decreases |lines|
  {
    if |lines| > 0 {
      var rest := lines[1..];
      PatternsFromLines(rest, p);
      if exists j :: 0 <= j < |rest| && p in LinePattern(rest[j]) {
        var j :| 0 <= j < |rest| && p in LinePattern(rest[j]);
        assert lines[j + 1] == rest[j];
      }
      if exists i :: 0 <= i < |lines| && p in LinePattern(lines[i]) {
        var i :| 0 <= i < |lines| && p in LinePattern(lines[i]);
        if i > 0 {
          assert rest[i - 1] == lines[i];
        }
      }
    }
  }

  lemma {:induction false} PatternsOfAppend(a: seq<string>, b: seq<string>)
    ensures PatternsOf(a + b) == PatternsOf(a) + PatternsOf(b)
    decreases |a|
  {
    if |a| == 0 {
      assert a + b == b;
    } else {
      HeadAndTail(a, b);
      PatternsOfCons(a[0], a[1..] + b);
      PatternsOfCons(a[0], a[1..]);
      PatternsOfAppend(a[1..], b);
      Associative(LinePattern(a[0]), PatternsOf(a[1..]), PatternsOf(b));
    }
  }

  lemma {:induction false} PatternsOfOne(line: string)
    ensures PatternsOf([line]) == LinePattern(line)
  {
    assert [line][1..] == [];
  }

  /** Blank lines and comment lines contribute no pattern wherever they stand. */
  lemma {:induction false} SkippedLine(a: seq<string>, line: string, b: seq<string>)
    requires !IsPatternLine(Trim(line))
    ensures PatternsOf(a + [line] + b) == PatternsOf(a) + PatternsOf(b)
  {
    PatternsOfAppend(a + [line], b);
    PatternsOfAppend(a, [line]);
    PatternsOfOne(line);
  }

  /** A pattern as it would be written back: trimmed, non-empty, no comment, no trailing separator. */
  predicate CleanPattern(p: string) {
    && |p| > 0
    && !IsWhitespace(p[0]) && !IsWhitespace(p[|p| - 1])
    && p[0] != '#' && p[|p| - 1] != '/' && p[|p| - 1] != '\\'
    && '\n' !in p
  }

  lemma {:induction false} CleanLine(p: string)
    requires CleanPattern(p)
    ensures LinePattern(p) == [p]
  {
    TrimUnpadded(p);
    assert !StartsWith(p, "#");
    assert !EndsWith(p, "/") && !EndsWith(p, "\\");
  }

  lemma {:induction false} PatternsOfClean(ps: seq<string>)
    requires forall i :: 0 <= i < |ps| ==> CleanPattern(ps[i])
    ensures PatternsOf(ps) == ps
    decreases |ps|
  {
    if |ps| > 0 {
      CleanLine(ps[0]);
      PatternsOfClean(ps[1..]);
      assert ps == [ps[0]] + ps[1..];
      PatternsOfCons(ps[0], ps[1..]);
    }
  }

  /** Without carriage returns before the line feeds, splitting lines is splitting at line feeds. */
  lemma {:induction false} SplitLinesPlain(content: string)
    requires forall i :: 0 <= i < |Split(content, '\n')| ==> !EndsWith(Split(content, '\n')[i], "\r")
    ensures SplitLines(content) == Split(content, '\n')
  {
  }

  /** Writing clean patterns one per line and loading the file gives them back. */
  lemma {:induction false} ParseRoundTrip(ps: seq<string>)
    requires forall i :: 0 <= i < |ps| ==> CleanPattern(ps[i])
    ensures ParsePatterns(Some(Join(ps, "\n"))) == ps
  {
    if |ps| == 0 {
      assert Split("", '\n') == [""];
      SplitLinesPlain("");
      PatternsOfOne("");
    } else {
      SplitJoin(ps, '\n');
      forall i | 0 <= i < |ps| ensures !EndsWith(ps[i], "\r") {
        assert ps[i][|ps[i]| - 1] != '\r';
      }
      SplitLinesPlain(Join(ps, "\n"));
      PatternsOfClean(ps);
    }
  }

  /** Whitespace around a line changes nothing about the pattern it gives. */
  lemma {:induction false} PaddedLine(pre: string, line: string, post: string)
    requires AllWhitespace(pre) && AllWhitespace(post)
    ensures LinePattern(pre + line + post) == LinePattern(line)
  {
    TrimIgnoresPadding(pre, line, post);
  }

  /** A clean pattern with one trailing `/` or `\`, padded with whitespace, gives the bare pattern. */
  lemma {:induction false} PaddedSeparatorLine(pre: string, p: string, sep: char, post: string)
    requires AllWhitespace(pre) && AllWhitespace(post) && CleanPattern(p)
    requires sep == '/' || sep == '\\'
    ensures LinePattern(pre + p + [sep] + post) == [p]
  {
    Associative(pre, p, [sep]);
    PaddedLine(pre, p + [sep], post);
    SeparatorLine(p, sep);
  }

  lemma {:induction false} SeparatorLine(p: string, sep: char)
    requires CleanPattern(p)
    requires sep == '/' || sep == '\\'
    ensures LinePattern(p + [sep]) == [p]
  {
    var line := p + [sep];
    TrimUnpadded(line);
    assert line[0] == p[0];
    assert !StartsWith(line, "#");
    assert line[..|line| - 1] == p;
  }

  /** Lines without line feeds or trailing carriage returns, joined into a file, load line by line. */
  lemma {:induction false} ParseLines(lines: seq<string>)
    requires |lines| > 0
    requires forall i :: 0 <= i < |lines| ==> '\n' !in lines[i] && !EndsWith(lines[i], "\r")
    ensures ParsePatterns(Some(Join(lines, "\n"))) == PatternsOf(lines)
  {
    SplitJoin(lines, '\n');
    SplitLinesPlain(Join(lines, "\n"));
  }

  // ---------------------------------------------------------------------
  // Matching
  // ---------------------------------------------------------------------

  /** Whether one pattern covers the normalised relative path (and its segments). */
  predicate PatternMatches(pattern: string, path: string, parts: seq<string>)
    ensures !StartsWith(pattern, "/") && PatternMatches(pattern, path, parts) ==> |parts| > 0
  {
    if StartsWith(pattern, "/") then
      var anchored := Normalize(pattern[1..]);
      path == anchored || StartsWith(path, anchored + "/")
    else
      var floating := Normalize(pattern);
      exists i | 0 <= i < |parts| ::
        var sub := Join(parts[i..], [Sep]);
        sub == floating || StartsWith(sub, floating + "/")
  }

  /** An anchored pattern looks only at the whole path, never at its segments. */
  lemma AnchoredIgnoresSegments(pattern: string, path: string, parts: seq<string>, others: seq<string>)
    requires StartsWith(pattern, "/")
    ensures PatternMatches(pattern, path, parts) <==> PatternMatches(pattern, path, others)
  {
  }

  /** The check against the patterns, for a path relative to the working directory. */
  predicate MatchesSome(rel: string, patterns: seq<string>) {
    var path := Normalize(rel);
    var parts := Split(path, Sep);
    |patterns| > 0 && exists k | 0 <= k < |patterns| :: PatternMatches(patterns[k], path, parts)
  }

  /** A relative path that climbs out of the working directory. */
  predicate LeavesRoot(rel: string) {
    rel == ".." || StartsWith(rel, "../")
  }

  function DirectParts(filePath: string): seq<string> {
    Split(Normalize(filePath), Sep)
  }

  /**
   * `isIgnored`: any `.aiignore` segment hides the path; otherwise a path
   * outside the working directory is never hidden, and one inside is hidden
   * when some pattern matches it.
   */
  function IsIgnored(cwd: seq<string>, filePath: string, patterns: seq<string>): (r: bool)
    ensures IgnoreFileName in DirectParts(filePath) ==> r
    ensures |patterns| == 0 ==> (r <==> IgnoreFileName in DirectParts(filePath))
  {
    if IgnoreFileName in DirectParts(filePath) then true
    else
      var rel := Relative(cwd, Resolve(cwd, filePath));
      if LeavesRoot(rel) || StartsWith(rel, "/") then false
      else MatchesSome(rel, patterns)
  }

  /** `isIgnored` with the `.aiignore` file read as it is at the time of the call. */
  function IsIgnoredByFile(cwd: seq<string>, filePath: string, file: Option<string>): bool {
    IsIgnored(cwd, filePath, ParsePatterns(file))
  }

  /** A missing or unreadable file hides nothing but the ignore file itself. */
  lemma {:induction false} MissingFileHidesOnlyItself(cwd: seq<string>, filePath: string)
    ensures IsIgnoredByFile(cwd, filePath, None) <==> IgnoreFileName in DirectParts(filePath)
  {
  }

  /** Whatever the patterns, a path that resolves outside the working directory is not hidden by them. */
  lemma {:induction false} OutsideNeverIgnored(cwd: seq<string>, filePath: string, patterns: seq<string>)
    requires !IsPrefix(cwd, Resolve(cwd, filePath))
    ensures IsIgnored(cwd, filePath, patterns) <==> IgnoreFileName in DirectParts(filePath)
  {
    RelativeOutside(cwd, Resolve(cwd, filePath));
  }

  // ---------------------------------------------------------------------
  // Matching on segments
  // ---------------------------------------------------------------------

  /** A pattern written as segments: anchored at the working directory (`/a/b`) or floating (`a/b`). */
  datatype Pattern = Anchored(segs: seq<string>) | Floating(segs: seq<string>)

  function Render(p: Pattern): string {
    match p
    case Anchored(segs) => "/" + Join(segs, [Sep])
    case Floating(segs) => Join(segs, [Sep])
  }

  function RenderAll(ps: seq<Pattern>): (r: seq<string>)
    ensures |r| == |ps| && forall k :: 0 <= k < |ps| ==> r[k] == Render(ps[k])
  {
    seq(|ps|, k requires 0 <= k < |ps| => Render(ps[k]))
  }

  predicate WellFormed(p: Pattern) {
    |p.segs| > 0 && PlainSegments(p.segs)
  }

  /** The intended meaning: an anchored pattern is a leading run of segments, a floating one any run. */
  predicate Covers(p: Pattern, segs: seq<string>) {
    match p
    case Anchored(ps) => IsPrefix(ps, segs)
    case Floating(ps) => exists i | 0 <= i < |segs| :: IsPrefix(ps, segs[i..])
  }

  /** A leading run of segments shows up as a text prefix ending at a separator. */
  lemma {:induction false} PrefixJoins(s: seq<string>, p: seq<string>)
    requires |p| > 0 && IsPrefix(p, s)
    ensures Join(s, [Sep]) == Join(p, [Sep]) || StartsWith(Join(s, [Sep]), Join(p, [Sep]) + "/")
  {
    if |p| == |s| {
      assert s == p;
    } else {
      var tail := s[|p|..];
      assert s == p + tail;
      JoinAppend(p, tail, [Sep]);
      var jp := Join(p, [Sep]);
      assert Join(s, [Sep]) == (jp + "/") + Join(tail, [Sep]);
    }
  }

  /** Conversely, for plain segments such a text prefix is a leading run of segments. */
  lemma {:induction false} JoinsPrefix(s: seq<string>, p: seq<string>)
    requires |s| > 0 && PlainSegments(s) && |p| > 0 && PlainSegments(p)
    requires Join(s, [Sep]) == Join(p, [Sep]) || StartsWith(Join(s, [Sep]), Join(p, [Sep]) + "/")
    ensures IsPrefix(p, s)
  {
    var js := Join(s, [Sep]);
    var jp := Join(p, [Sep]);
    NormalizePlain(s);
    NormalizePlain(p);
    if js == jp {
      assert s == p;
    } else {
      var rest := js[|jp| + 1..];
      assert js == js[..|jp| + 1] + rest;
      assert js == jp + [Sep] + rest;
      SplitJoinPrefix(p, Sep, rest);
      assert s == p + Split(rest, Sep);
    }
  }

  /** Text-level prefix matching on joined plain segments is segment-level prefix matching. */
  lemma {:induction false} JoinPrefixMatch(s: seq<string>, p: seq<string>)
    requires |s| > 0 && PlainSegments(s) && |p| > 0 && PlainSegments(p)
    ensures (Join(s, [Sep]) == Join(p, [Sep]) || StartsWith(Join(s, [Sep]), Join(p, [Sep]) + "/")) <==> IsPrefix(p, s)
  {
    if IsPrefix(p, s) {
      PrefixJoins(s, p);
    }
    if Join(s, [Sep]) == Join(p, [Sep]) || StartsWith(Join(s, [Sep]), Join(p, [Sep]) + "/") {
      JoinsPrefix(s, p);
    }
  }

  lemma {:induction false} RenderedMatches(pat: Pattern, s: seq<string>)
    requires WellFormed(pat) && |s| > 0 && PlainSegments(s)
    ensures PatternMatches(Render(pat), Join(s, [Sep]), s) <==> Covers(pat, s)
  {
    NormalizePlain(pat.segs);
    PlainJoinEnds(pat.segs);
    match pat
    case Anchored(ps) =>
      assert Render(pat)[1..] == Join(ps, [Sep]);
      JoinPrefixMatch(s, ps);
    case Floating(ps) =>
      forall i | 0 <= i < |s|
        ensures (Join(s[i..], [Sep]) == Join(ps, [Sep]) || StartsWith(Join(s[i..], [Sep]), Join(ps, [Sep]) + "/"))
                <==> IsPrefix(ps, s[i..])
      {
        JoinPrefixMatch(s[i..], ps);
      }
  }

  /** A path that starts by climbing has `..` as its first segment. */
  lemma {:induction false} ClimbingHead(t: string)
    ensures LeavesRoot(t) ==> Split(t, Sep)[0] == ".."
  {
    SplitNoSeparator("..", Sep);
    if StartsWith(t, "../") {
      var rest := t[3..];
      assert t == t[..3] + rest;
      assert t[..3] == "../";
      assert Join([".."], [Sep]) == "..";
      assert t == Join([".."], [Sep]) + [Sep] + rest;
      SplitJoinPrefix([".."], Sep, rest);
      assert Split(t, Sep) == [".."] + Split(rest, Sep);
    }
  }

  /** A relative path of plain segments never looks like it leaves the working directory. */
  lemma {:induction false} PlainStaysInside(s: seq<string>)
    requires |s| > 0 && PlainSegments(s)
    ensures !LeavesRoot(Join(s, [Sep])) && !StartsWith(Join(s, [Sep]), "/")
  {
    var js := Join(s, [Sep]);
    NormalizePlain(s);
    PlainJoinEnds(s);
    ClimbingHead(js);
    assert s[0] != "..";
  }

  /**
   * For a path written as plain segments below the working directory and
   * patterns written as plain segments: the path is hidden exactly when it
   * has an `.aiignore` segment or some pattern covers its segments.
   */
  lemma {:induction false} IgnoredBySegments(cwd: seq<string>, s: seq<string>, pats: seq<Pattern>)
    requires PlainSegments(cwd) && |s| > 0 && PlainSegments(s)
    requires forall k :: 0 <= k < |pats| ==> WellFormed(pats[k])
    ensures IsIgnored(cwd, Join(s, [Sep]), RenderAll(pats))
            <==> IgnoreFileName in s || exists k | 0 <= k < |pats| :: Covers(pats[k], s)
  {
    var path := Join(s, [Sep]);
    NormalizePlain(s);
    ResolvePlain(cwd, s);
    RelativeInside(cwd, s);
    PlainStaysInside(s);
    forall k | 0 <= k < |pats| ensures PatternMatches(RenderAll(pats)[k], path, s) <==> Covers(pats[k], s) {
      RenderedMatches(pats[k], s);
    }
  }

  lemma {:induction false} HeadMismatch(p: seq<string>, s: seq<string>)
    requires |p| > 0 && |s| > 0 && |p[0]| != |s[0]|
    ensures !IsPrefix(p, s)
  {
    assert |p| <= |s| ==> s[..|p|][0] == s[0];
  }

  /** The directory cases from the tests, stated on segments. */
  lemma {:induction false} MatchingExamples()
    ensures Covers(Anchored(["dist"]), ["dist", "file.js"]) && Covers(Anchored(["dist"]), ["dist"])
    ensures !Covers(Anchored(["dist"]), ["subdir", "dist", "file.js"])
    ensures Covers(Floating(["node_modules"]), ["subdir", "node_modules", "pkg", "index.js"])
    ensures !Covers(Floating(["temp"]), ["templates", "index.html"])
    ensures Covers(Floating(["src", "generated"]), ["subdir", "src", "generated", "file.ts"])
    ensures !Covers(Floating(["src", "generated"]), ["src", "index.ts"])
  {
    HeadMismatch(["dist"], ["subdir", "dist", "file.js"]);
    var sub := ["subdir", "node_modules", "pkg", "index.js"];
    assert IsPrefix(["node_modules"], sub[1..]);
    var gen := ["subdir", "src", "generated", "file.ts"];
    assert IsPrefix(["src", "generated"], gen[1..]);
    var tpl := ["templates", "index.html"];
    HeadMismatch(["temp"], tpl[0..]);
    HeadMismatch(["temp"], tpl[1..]);
    var src := ["src", "index.ts"];
    assert !IsPrefix(["src", "generated"], src[0..]) by {
      assert |src[0..]| == 2 && src[0..][1] == "index.ts";
      assert |"index.ts"| != |"generated"|;
    }
    assert !IsPrefix(["src", "generated"], src[1..]);
  }

  // ---------------------------------------------------------------------
  // The outside test as written
  // ---------------------------------------------------------------------

  /**
   * `isIgnored` as written treats every relative path whose text starts
   * with `..` as outside the working directory, including file names such
   * as `..env` that sit inside it.
   */
  function IsIgnoredAsWritten(cwd: seq<string>, filePath: string, patterns: seq<string>): (r: bool)
    ensures r ==> IsIgnored(cwd, filePath, patterns)
  {
    if IgnoreFileName in DirectParts(filePath) then true
    else
      var rel := Relative(cwd, Resolve(cwd, filePath));
      LeavingStartsWithDots(rel);
      if StartsWith(rel, "..") || StartsWith(rel, "/") then false
      else MatchesSome(rel, patterns)
  }

  lemma {:induction false} LeavingStartsWithDots(rel: string)
    ensures LeavesRoot(rel) ==> StartsWith(rel, "..")
  {
    if StartsWith(rel, "../") {
      assert rel[..2] == rel[..3][..2];
    }
  }

  /**
   * As written, a path below the working directory whose first segment
   * starts with two dots is never hidden by a pattern.
   */
  lemma {:induction false} DottedNamesEscapeAsWritten(cwd: seq<string>, s: seq<string>, patterns: seq<string>)
    requires PlainSegments(cwd) && |s| > 0 && PlainSegments(s) && IgnoreFileName !in s
    requires StartsWith(s[0], "..")
    ensures !IsIgnoredAsWritten(cwd, Join(s, [Sep]), patterns)
  {
    var js := Join(s, [Sep]);
    NormalizePlain(s);
    ResolvePlain(cwd, s);
    RelativeInside(cwd, s);
    JoinEnds(s, [Sep]);
    assert js[..2] == js[..|s[0]|][..2];
  }

  /**
   * A file inside the working directory whose name starts with two dots,
   * such as `..env`, listed by name in the ignore file: hidden by the
   * corrected check, not as written.
   */
  lemma {:induction false} DotDotNameEscapes(cwd: seq<string>, name: string)
    requires PlainSegments(cwd) && PlainSegment(name) && StartsWith(name, "..") && name != IgnoreFileName
    ensures IsIgnored(cwd, name, [name])
    ensures !IsIgnoredAsWritten(cwd, name, [name])
  {
    var s := [name];
    assert Join(s, [Sep]) == name;
    assert RenderAll([Floating(s)]) == [name];
    IgnoredBySegments(cwd, s, [Floating(s)]);
    assert IsPrefix(s, s[0..]);
    DottedNamesEscapeAsWritten(cwd, s, [name]);
  }
}

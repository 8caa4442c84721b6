/**
 * Spotting an ignored path inside a shell command. The command is cut into
 * candidates the way the program's global regular expression scans it: at
 * each position a double- or single-quoted span gives its inner text,
 * otherwise a maximal run of characters that are neither white space nor
 * one of `; & | > <` gives itself, otherwise the character is skipped. The
 * command mentions an ignored path when some non-empty candidate is ignored.
 * The ignore test is a parameter; `MentionsIgnoredFile` plugs in the
 * `.aiignore` check.
 */
module MentionsIgnored {
  import opened Wrappers
  import opened Strings
  import opened PosixPath
  import Aiignore

  /** The characters the expression's `.` does not match. */
  predicate LineTerminator(c: char) {
    c == '\n' || c == '\r' || c == '\U{2028}' || c == '\U{2029}'
  }

  /** A character an unquoted word may contain: not white space and not a shell operator. */
  predicate WordChar(c: char) {
    !IsWhitespace(c) && c != ';' && c != '&' && c != '|' && c != '>' && c != '<'
  }

  predicate IsQuote(c: char) {
    c == '"' || c == '\''
  }

  /**
   * The length of a quoted span's inner text, `t` being what follows the
   * opening quote `q`: the span runs to the first `q` not escaped by a
   * backslash. There is none when a backslash stands before a line
   * terminator or at the end, or when no closing quote follows.
   */
  function QuotedLen(t: string, q: char): (r: Option<nat>)
    ensures r.Some? ==> r.value < |t| && t[r.value] == q
    ensures r.Some? ==> forall i :: 0 <= i < r.value && t[i] == q ==> i > 0 && t[i - 1] == '\\'
    decreases |t|
  {
    if |t| == 0 then None
    else if t[0] == q then Some(0)
    else if t[0] == '\\' then
      if |t| >= 2 && !LineTerminator(t[1]) then
        match QuotedLen(t[2..], q)
        case None => None
        case Some(j) => Some(j + 2)
      else None
    else
      match QuotedLen(t[1..], q)
      case None => None
      case Some(j) => Some(j + 1)
  }

  /** The number of backslashes standing right before position `i`. */
  function BackslashesBefore(t: string, i: nat): (n: nat)
    requires i <= |t|
    ensures n <= i
    decreases i
  {
    if i == 0 || t[i - 1] != '\\' then 0 else 1 + BackslashesBefore(t, i - 1)
  }

  /** Position `i` is escaped: an odd run of backslashes stands right before it. */
  predicate Escaped(t: string, i: nat)
    requires i <= |t|
  {
    BackslashesBefore(t, i) % 2 == 1
  }

  /** An unescaped `q` at `i` closes the span. */
  predicate Closes(t: string, q: char, i: nat)
    requires i < |t|
  {
    t[i] == q && !Escaped(t, i)
  }

  /** An unescaped backslash with nothing the expression's `.` accepts after it: it is last, or a line terminator follows. */
  predicate Dangling(t: string, j: nat)
    requires j < |t|
  {
    t[j] == '\\' && !Escaped(t, j) && (j + 1 == |t| || LineTerminator(t[j + 1]))
  }

  /** A character other than a backslash in front shifts no backslash run. */
  lemma {:induction false} ShiftPastPlain(t: string, i: nat)
    requires 1 <= i <= |t| && t[0] != '\\'
    ensures BackslashesBefore(t, i) == BackslashesBefore(t[1..], i - 1)
    decreases i
  {
    if i > 1 && t[i - 1] == '\\' {
      ShiftPastPlain(t, i - 1);
    }
  }

  /** An escape pair in front changes a backslash run by zero or two. */
  lemma {:induction false} ShiftPastEscape(t: string, i: nat)
    requires 2 <= i <= |t| && t[0] == '\\'
    ensures Escaped(t, i) <==> Escaped(t[2..], i - 2)
    decreases i
  {
    if i > 2 && t[i - 1] == '\\' {
      ShiftPastEscape(t, i - 1);
    } else if i == 2 && t[1] == '\\' {
      assert BackslashesBefore(t, 1) == 1;
    }
  }

  /**
   * The span ends at the first unescaped closing quote, provided no unescaped
   * backslash before it dangles; there is no span exactly when every
   * unescaped closing quote has a dangling backslash before it.
   */
  lemma {:induction false} QuotedSpanEnds(t: string, q: char)
    requires IsQuote(q)
    ensures QuotedLen(t, q).Some? ==>
              && QuotedLen(t, q).value < |t| && Closes(t, q, QuotedLen(t, q).value)
              && forall i :: 0 <= i < QuotedLen(t, q).value ==> !Closes(t, q, i) && !Dangling(t, i)
    ensures QuotedLen(t, q).None? ==>
              forall i :: 0 <= i < |t| && Closes(t, q, i) ==> exists j :: 0 <= j < i && Dangling(t, j)
    decreases |t|
  {
    if |t| == 0 || t[0] == q {
    } else if t[0] == '\\' {
      if |t| >= 2 && !LineTerminator(t[1]) {
        var rest := t[2..];
        QuotedSpanEnds(rest, q);
        forall i | 2 <= i < |t|
          ensures Closes(t, q, i) <==> Closes(rest, q, i - 2)
          ensures Dangling(t, i) <==> Dangling(rest, i - 2)
        {
          ShiftPastEscape(t, i);
        }
        assert Escaped(t, 1) by {
          assert BackslashesBefore(t, 1) == 1;
        }
        if QuotedLen(t, q).None? {
          forall i | 0 <= i < |t| && Closes(t, q, i)
            ensures exists j :: 0 <= j < i && Dangling(t, j)
          {
            var j :| 0 <= j < i - 2 && Dangling(rest, j);
            assert Dangling(t, j + 2);
          }
        }
      } else {
        assert Dangling(t, 0);
      }
    } else {
      var rest := t[1..];
      QuotedSpanEnds(rest, q);
      forall i | 1 <= i < |t|
        ensures Closes(t, q, i) <==> Closes(rest, q, i - 1)
        ensures Dangling(t, i) <==> Dangling(rest, i - 1)
      {
        ShiftPastPlain(t, i);
      }
      if QuotedLen(t, q).None? {
        forall i | 0 <= i < |t| && Closes(t, q, i)
          ensures exists j :: 0 <= j < i && Dangling(t, j)
        {
          var j :| 0 <= j < i - 1 && Dangling(rest, j);
          assert Dangling(t, j + 1);
        }
      }
    }
  }

  /** A closed span exists exactly when some unescaped closing quote has no dangling backslash before it. */
  lemma QuotedSpanExists(t: string, q: char)
    requires IsQuote(q)
    ensures QuotedLen(t, q).Some? <==>
            exists i :: 0 <= i < |t| && Closes(t, q, i) && forall j :: 0 <= j < i ==> !Dangling(t, j)
  {
    QuotedSpanEnds(t, q);
    if QuotedLen(t, q).Some? {
      var i := QuotedLen(t, q).value;
      assert Closes(t, q, i) && forall j :: 0 <= j < i ==> !Dangling(t, j);
    }
  }

  /** In `"\\"x"` the doubled backslash escapes itself, so the span closes at the second quote. */
  lemma EscapedBackslashCloses()
    ensures QuotedLen(['\\', '\\', '"', 'x', '"'], '"') == Some(2)
  {
    var t := ['\\', '\\', '"', 'x', '"'];
    assert t[2..] == ['"', 'x', '"'];
  }

  /** The length of the run of word characters at the head of `s`. */
  function RunLen(s: string): (n: nat)
    ensures n <= |s|
    ensures forall i :: 0 <= i < n ==> WordChar(s[i])
    ensures n < |s| ==> !WordChar(s[n])
    decreases |s|
  {
    if |s| == 0 || !WordChar(s[0]) then 0 else 1 + RunLen(s[1..])
  }

  /** One match of the expression at the head of the text: the candidate it yields, if any, and the length consumed. */
  datatype Match = Match(candidate: Option<string>, len: nat)

  predicate QuotedAt(s: string) {
    |s| > 0 && IsQuote(s[0]) && QuotedLen(s[1..], s[0]).Some?
  }

  /**
   * The quoted alternatives are tried first; a quote that does not open a
   * closed span is an ordinary word character; a character that starts no
   * match is skipped.
   */
  function Next(s: string): (m: Match)
    requires |s| > 0
    ensures 1 <= m.len <= |s|
    ensures QuotedAt(s) ==> m.len >= 2 && m.candidate == Some(s[1..m.len - 1]) && s[m.len - 1] == s[0]
    ensures m.candidate.None? <==> !WordChar(s[0])
    ensures !QuotedAt(s) && m.candidate.Some? ==>
              && m.candidate.value == s[..m.len]
              && (forall i :: 0 <= i < m.len ==> WordChar(s[i]))
              && (m.len == |s| || !WordChar(s[m.len]))
  {
    if QuotedAt(s) then
      var j := QuotedLen(s[1..], s[0]).value;
      Match(Some(s[1..j + 1]), j + 2)
    else if WordChar(s[0]) then
      var n := RunLen(s);
      Match(Some(s[..n]), n)
    else Match(None, 1)
  }

  /** Every candidate the scan yields, in order, empty ones included. */
  function Candidates(s: string): (r: seq<string>)
    ensures |r| <= |s|
    ensures forall k :: 0 <= k < |r| ==> |r[k]| <= |s|
    decreases |s|
  {
    if |s| == 0 then []
    else
      var m := Next(s);
      (if m.candidate.Some? then [m.candidate.value] else []) + Candidates(s[m.len..])
  }

  /** Some non-empty candidate of the command is ignored. */
  predicate Mentions(command: string, ignored: string -> bool) {
    exists k | 0 <= k < |Candidates(command)| :: Candidates(command)[k] != "" && ignored(Candidates(command)[k])
  }

  /** The scan decides from the head match and the rest of the text. */
  lemma {:induction false} MentionsStep(s: string, ignored: string -> bool)
    requires |s| > 0
    ensures var m := Next(s);
            Mentions(s, ignored) <==>
              (m.candidate.Some? && m.candidate.value != "" && ignored(m.candidate.value))
              || Mentions(s[m.len..], ignored)
  {
    var m := Next(s);
    var head := if m.candidate.Some? then [m.candidate.value] else [];
    var rest := Candidates(s[m.len..]);
    assert Candidates(s) == head + rest;
    if Mentions(s[m.len..], ignored) {
      var k :| 0 <= k < |rest| && rest[k] != "" && ignored(rest[k]);
      assert Candidates(s)[|head| + k] == rest[k];
    }
    if m.candidate.Some? && m.candidate.value != "" && ignored(m.candidate.value) {
      assert Candidates(s)[0] == m.candidate.value;
    }
  }

  /**
   * `mentionsIgnoredPath`: scan the command match by match and stop at the
   * first non-empty candidate that is ignored.
   */
  method MentionsIgnoredPath(command: string, ignored: string -> bool) returns (r: bool)
    ensures r <==> Mentions(command, ignored)
  {
    var i := 0;
    while i < |command|
      invariant 0 <= i <= |command|
      invariant Mentions(command, ignored) <==> Mentions(command[i..], ignored)
      decreases |command| - i
    {
      var m := Next(command[i..]);
      MentionsStep(command[i..], ignored);
      if m.candidate.Some? && m.candidate.value != "" && ignored(m.candidate.value) {
        return true;
      }
      assert command[i..][m.len..] == command[i + m.len..];
      i := i + m.len;
    }
    assert Candidates(command[i..]) == [];
    r := false;
  }

  // ---------------------------------------------------------------------
  // How commands are cut
  // ---------------------------------------------------------------------

  /** A closed quoted span with no backslash and no quote inside. */
  lemma {:induction false} QuotedPlain(w: string, q: char, rest: string)
    requires q !in w && '\\' !in w
    ensures QuotedLen(w + [q] + rest, q) == Some(|w|)
    decreases |w|
  {
    if |w| > 0 {
      assert (w + [q] + rest)[1..] == w[1..] + [q] + rest;
      QuotedPlain(w[1..], q, rest);
    }
  }

  /** A double- or single-quoted span yields its inner text, without the quotes, as one candidate. */
  lemma {:induction false} QuotedSpan(q: char, w: string, rest: string)
    requires IsQuote(q) && q !in w && '\\' !in w
    ensures Candidates([q] + w + [q] + rest) == [w] + Candidates(rest)
  {
    var s := [q] + w + [q] + rest;
    assert s[1..] == w + [q] + rest;
    QuotedPlain(w, q, rest);
    assert QuotedAt(s);
    var m := Next(s);
    assert m.len == |w| + 2;
    assert s[m.len..] == rest;
    assert s[1..m.len - 1] == w;
  }

  /** A word of the command: non-empty, word characters only, not opening with a quote. */
  predicate PlainWord(w: string) {
    |w| > 0 && !IsQuote(w[0]) && forall i :: 0 <= i < |w| ==> WordChar(w[i])
  }

  /** Text that separates words: non-empty and without word characters. */
  predicate Separator(sep: string) {
    |sep| > 0 && forall i :: 0 <= i < |sep| ==> !WordChar(sep[i])
  }

  /** Unquoted words are maximal runs: one ends where a non-word character or the text ends. */
  lemma {:induction false} WordThenRest(w: string, rest: string)
    requires PlainWord(w)
    requires |rest| == 0 || !WordChar(rest[0])
    ensures Candidates(w + rest) == [w] + Candidates(rest)
  {
    var s := w + rest;
    assert !QuotedAt(s);
    var m := Next(s);
    assert forall i :: 0 <= i < |w| ==> WordChar(s[i]);
    assert |w| < |s| ==> !WordChar(s[|w|]);
    assert m.len == |w|;
    assert s[..m.len] == w;
    assert s[m.len..] == rest;
  }

  /** White space and shell operators yield no candidate. */
  lemma {:induction false} SkipSeparator(sep: string, rest: string)
    requires forall i :: 0 <= i < |sep| ==> !WordChar(sep[i])
    ensures Candidates(sep + rest) == Candidates(rest)
    decreases |sep|
  {
    if |sep| > 0 {
      var s := sep + rest;
      assert !QuotedAt(s);
      assert s[1..] == sep[1..] + rest;
      SkipSeparator(sep[1..], rest);
    } else {
      assert sep + rest == rest;
    }
  }

  /** Plain words joined by separators are cut back into exactly those words. */
  lemma {:induction false} PlainWordsRoundTrip(words: seq<string>, sep: string)
    requires forall k :: 0 <= k < |words| ==> PlainWord(words[k])
    requires Separator(sep)
    ensures Candidates(Join(words, sep)) == words
    decreases |words|
  {
    if |words| == 0 {
    } else if |words| == 1 {
      WordThenRest(words[0], "");
      assert words[0] + "" == words[0];
    } else {
      var tail := Join(words[1..], sep);
      assert Join(words, sep) == words[0] + sep + tail;
      WordThenSeparator(words[0], sep, tail);
      PlainWordsRoundTrip(words[1..], sep);
      assert words == [words[0]] + words[1..];
    }
  }

  lemma {:induction false} WordThenSeparator(w: string, sep: string, tail: string)
    requires PlainWord(w) && Separator(sep)
    ensures Candidates(w + sep + tail) == [w] + Candidates(tail)
  {
    assert w + sep + tail == w + (sep + tail);
    WordThenRest(w, sep + tail);
    SkipSeparator(sep, tail);
  }

  /** An ignored word anywhere among the command's words is found. */
  lemma {:induction false} IgnoredWordFound(words: seq<string>, sep: string, k: nat, ignored: string -> bool)
    requires forall j :: 0 <= j < |words| ==> PlainWord(words[j])
    requires Separator(sep)
    requires k < |words| && ignored(words[k])
    ensures Mentions(Join(words, sep), ignored)
  {
    PlainWordsRoundTrip(words, sep);
    assert Candidates(Join(words, sep))[k] == words[k];
  }

  /** If no word of the command is ignored, the command mentions nothing. */
  lemma {:induction false} NoIgnoredWord(words: seq<string>, sep: string, ignored: string -> bool)
    requires forall j :: 0 <= j < |words| ==> PlainWord(words[j]) && !ignored(words[j])
    requires Separator(sep)
    ensures !Mentions(Join(words, sep), ignored)
  {
    PlainWordsRoundTrip(words, sep);
  }

  /** A quoted argument after a command word is checked as a whole, spaces included. */
  lemma {:induction false} QuotedArgumentFound(cmd: string, sep: string, q: char, w: string, ignored: string -> bool)
    requires PlainWord(cmd) && Separator(sep)
    requires IsQuote(q) && q !in w && '\\' !in w && w != "" && ignored(w)
    ensures Mentions(cmd + sep + ([q] + w + [q]), ignored)
  {
    var quoted := [q] + w + [q];
    Associative(cmd, sep, quoted);
    WordThenRest(cmd, sep + quoted);
    SkipSeparator(sep, quoted);
    QuotedSpan(q, w, "");
    assert quoted + "" == quoted;
    var found := Candidates(cmd + sep + quoted);
    assert found == [cmd] + ([w] + []);
    assert found[1] == w;
  }

  // ---------------------------------------------------------------------
  // With the `.aiignore` check
  // ---------------------------------------------------------------------

  /** The command check with the ignore test of the working directory's patterns. */
  predicate MentionsIgnoredFile(cwd: seq<string>, command: string, patterns: seq<string>) {
    Mentions(command, p => Aiignore.IsIgnored(cwd, p, patterns))
  }

  /** A command that names the ignore file itself as one of its words mentions an ignored path. */
  lemma {:induction false} NamingTheIgnoreFile(cwd: seq<string>, words: seq<string>, sep: string, k: nat, patterns: seq<string>)
    requires forall j :: 0 <= j < |words| ==> PlainWord(words[j])
    requires Separator(sep)
    requires k < |words| && words[k] == Aiignore.IgnoreFileName
    ensures MentionsIgnoredFile(cwd, Join(words, sep), patterns)
  {
    var s := [Aiignore.IgnoreFileName];
    assert PlainSegments(s);
    NormalizePlain(s);
    assert Join(s, [Sep]) == Aiignore.IgnoreFileName;
    assert Aiignore.IgnoreFileName in Aiignore.DirectParts(Aiignore.IgnoreFileName);
    IgnoredWordFound(words, sep, k, p => Aiignore.IsIgnored(cwd, p, patterns));
  }
}

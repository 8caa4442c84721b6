/**
 * `isVersionNewer`: whether a published version is newer than the running
 * one. Both are split at dots and each piece is read the way JavaScript's
 * `parseInt(piece, 10)` reads it; the first three pieces are compared in
 * order, and a missing or unreadable piece ends the comparison with "not
 * newer".
 */
module Version {
  import opened Wrappers
  import opened Strings

  predicate IsDigit(c: char) {
    '0' <= c <= '9'
  }

  function DigitValue(c: char): nat
    requires IsDigit(c)
  {
    c as int - '0' as int
  }

  predicate AllDigits(s: string) {
    forall i :: 0 <= i < |s| ==> IsDigit(s[i])
  }

  /** The length of the run of digits at the head of `s`. */
  function DigitRun(s: string): (n: nat)
    ensures n <= |s| && AllDigits(s[..n])
    ensures n < |s| ==> !IsDigit(s[n])
    decreases |s|
  {
    if |s| == 0 || !IsDigit(s[0]) then 0
    else
      var n := 1 + DigitRun(s[1..]);
      assert forall i :: 1 <= i < n ==> s[..n][i] == s[1..][..n - 1][i - 1];
      n
  }

  /** The number a string of decimal digits denotes, most significant digit first. */
  function DigitsValue(s: string): nat
    requires AllDigits(s)
    decreases |s|
  {
    if |s| == 0 then 0 else 10 * DigitsValue(s[..|s| - 1]) + DigitValue(s[|s| - 1])
  }

  /**
   * Where `parseInt` finds the first digit of its number: at `k`, after
   * nothing but white space, or right after one sign that follows nothing
   * but white space.
   */
  predicate NumberAt(s: string, k: nat) {
    && k < |s| && IsDigit(s[k])
    && (AllWhitespace(s[..k]) || (k > 0 && (s[k - 1] == '-' || s[k - 1] == '+') && AllWhitespace(s[..k - 1])))
  }

  /** What `parseInt` reads digits from: the text after leading white space and at most one sign. */
  function Unsigned(s: string): string {
    var t := TrimStart(s);
    if |t| > 0 && (t[0] == '-' || t[0] == '+') then t[1..] else t
  }

  /** The sign `parseInt` reads is a minus. */
  predicate Negative(s: string) {
    var t := TrimStart(s);
    |t| > 0 && t[0] == '-'
  }

  /**
   * `parseInt(s, 10)`, with `None` for NaN: leading white space is skipped,
   * one sign is allowed, then the longest run of digits is read and the
   * rest ignored. Without a digit there is no number.
   */
  function ParseInt(s: string): (r: Option<int>)
    ensures r.Some? <==> exists k: nat :: NumberAt(s, k)
  {
    var u := Unsigned(s);
    var n := DigitRun(u);
    DigitFound(s);
    NumberReadable(s);
    if n == 0 then None
    else
      var v: int := DigitsValue(u[..n]);
      if Negative(s) then Some(-v) else Some(v)
  }

  /** Where the number starts, `parseInt`'s skipping of white space and sign arrives. */
  lemma FirstDigit(s: string, k: nat)
    requires NumberAt(s, k)
    ensures Unsigned(s) == s[k..]
    ensures Negative(s) <==> k > 0 && s[k - 1] == '-'
  {
    var t := TrimStart(s);
    var m := |s| - |t|;
    assert m < |s| ==> t[0] == s[m] && !IsWhitespace(s[m]);
    var j := if AllWhitespace(s[..k]) then k else k - 1;
    assert forall i :: 0 <= i < j ==> IsWhitespace(s[i]) by {
      assert AllWhitespace(s[..j]);
      assert forall i :: 0 <= i < j ==> s[..j][i] == s[i];
    }
    assert !IsWhitespace(s[j]);
    assert m == j;
    assert j == k - 1 ==> t[1..] == s[k..];
    assert j == k && k > 0 ==> IsWhitespace(s[k - 1]);
  }

  /** A digit after the skipped white space and sign is a number start. */
  lemma DigitFound(s: string)
    ensures DigitRun(Unsigned(s)) > 0 ==> exists k: nat :: NumberAt(s, k)
  {
    var t := TrimStart(s);
    var m := |s| - |t|;
    var signed := |t| > 0 && (t[0] == '-' || t[0] == '+');
    var u := Unsigned(s);
    if DigitRun(u) > 0 {
      assert AllWhitespace(s[..m]);
      var k := m + if signed then 1 else 0;
      assert u[0] == s[k];
      assert NumberAt(s, k);
    }
  }

  /** A number start leaves a digit for `parseInt` to read. */
  lemma NumberReadable(s: string)
    ensures (exists k: nat :: NumberAt(s, k)) ==> DigitRun(Unsigned(s)) > 0
  {
    if exists k: nat :: NumberAt(s, k) {
      var k: nat :| NumberAt(s, k);
      FirstDigit(s, k);
      assert Unsigned(s)[0] == s[k];
    }
  }

  /** The value read is the digit run at the number start, negated after a minus. */
  lemma ParseIntValue(s: string, k: nat)
    requires NumberAt(s, k)
    ensures var v: int := DigitsValue(s[k..][..DigitRun(s[k..])]);
            ParseInt(s) == Some(if k > 0 && s[k - 1] == '-' then -v else v)
  {
    FirstDigit(s, k);
    assert s[k..][0] == s[k];
  }

  /** The decimal digits of a natural number, without leading zeros. */
  function NatToString(n: nat): (r: string)
    ensures |r| > 0 && AllDigits(r)
    ensures |r| > 1 ==> r[0] != '0'
    decreases n
  {
    if n < 10 then [('0' as int + n) as char]
    else NatToString(n / 10) + [('0' as int + n % 10) as char]
  }

  lemma {:induction false} NatToStringValue(n: nat)
    ensures DigitsValue(NatToString(n)) == n
    decreases n
  {
    var s := NatToString(n);
    if n >= 10 {
      assert s[..|s| - 1] == NatToString(n / 10);
      NatToStringValue(n / 10);
    }
  }

  /** A run of `n` digits followed by a non-digit or the end is the run `DigitRun` finds. */
  lemma {:induction false} DigitRunExact(s: string, n: nat)
    requires n <= |s| && AllDigits(s[..n])
    requires n < |s| ==> !IsDigit(s[n])
    ensures DigitRun(s) == n
    decreases n
  {
    if n > 0 {
      assert s[..n][0] == s[0];
      assert s[1..][..n - 1] == s[..n][1..];
      DigitRunExact(s[1..], n - 1);
    }
  }

  /** Reading back the digits of a number, with anything after them that is not a digit, gives the number. */
  lemma {:induction false} ParseIntRoundTrip(n: nat, tail: string)
    requires |tail| == 0 || !IsDigit(tail[0])
    ensures ParseInt(NatToString(n) + tail) == Some(n)
  {
    var d := NatToString(n);
    var s := d + tail;
    assert !IsWhitespace(s[0]) by {
      assert s[0] == d[0] && IsDigit(d[0]);
    }
    assert TrimStart(s) == s;
    assert !(s[0] == '-' || s[0] == '+');
    assert s[..|d|] == d;
    DigitRunExact(s, |d|);
    NatToStringValue(n);
  }

  /** A piece that starts with something other than white space, a sign or a digit is not a number. */
  lemma {:induction false} NotANumber(s: string)
    requires |s| > 0 && !IsWhitespace(s[0]) && !IsDigit(s[0]) && s[0] != '-' && s[0] != '+'
    ensures ParseInt(s) == None
  {
    assert TrimStart(s) == s;
  }

  // ---------------------------------------------------------------------
  // The comparison
  // ---------------------------------------------------------------------

  function Components(v: string): (r: seq<Option<int>>)
    ensures |r| == |Split(v, '.')|
  {
    var pieces := Split(v, '.');
    seq(|pieces|, i requires 0 <= i < |pieces| => ParseInt(pieces[i]))
  }

  /** Both versions have a readable `i`-th component. */
  predicate Readable(l: seq<Option<int>>, c: seq<Option<int>>, i: nat) {
    i < |l| && i < |c| && l[i].Some? && c[i].Some?
  }

  /** The comparison loop from component `i` on. */
  function NewerFrom(l: seq<Option<int>>, c: seq<Option<int>>, i: nat): bool
    decreases 3 - i
  {
    if i >= 3 || !Readable(l, c, i) then false
    else if l[i].value > c[i].value then true
    else if l[i].value < c[i].value then false
    else NewerFrom(l, c, i + 1)
  }

  /**
   * `isVersionNewer(latest, current)`: the first of the three components
   * where the versions differ decides, if all up to it are readable.
   */
  function IsVersionNewer(latest: string, current: string): (r: bool)
    ensures r <==> exists k :: DecidedAt(Components(latest), Components(current), 0, k)
  {
    NewerFromIsLexicographic(Components(latest), Components(current), 0);
    NewerFrom(Components(latest), Components(current), 0)
  }

  /**
   * The reference reading: some component `k` among the first three is
   * larger, and every component up to it is readable and, before it, equal.
   */
  predicate DecidedAt(l: seq<Option<int>>, c: seq<Option<int>>, from: nat, k: nat) {
    && from <= k < 3
    && (forall j :: from <= j < k ==> Readable(l, c, j) && l[j].value == c[j].value)
    && Readable(l, c, k)
    && l[k].value > c[k].value
  }

  lemma {:induction false} NewerFromIsLexicographic(l: seq<Option<int>>, c: seq<Option<int>>, i: nat)
    ensures NewerFrom(l, c, i) <==> exists k :: DecidedAt(l, c, i, k)
    decreases 3 - i
  {
    // How a decision from `i` relates to one from `i + 1`.
    forall k | DecidedAt(l, c, i, k) ensures Readable(l, c, i) && (k == i || l[i].value == c[i].value) {
      assert k == i || Readable(l, c, i);
    }
    forall k | DecidedAt(l, c, i, k) && k != i ensures DecidedAt(l, c, i + 1, k) {
    }
    if i < 3 && Readable(l, c, i) {
      if l[i].value > c[i].value {
        assert DecidedAt(l, c, i, i);
      } else if l[i].value == c[i].value {
        NewerFromIsLexicographic(l, c, i + 1);
        if NewerFrom(l, c, i) {
          var k :| DecidedAt(l, c, i + 1, k);
          assert DecidedAt(l, c, i, k);
        }
      }
    }
  }

  /** A version is never newer than itself. */
  lemma {:induction false} Irreflexive(v: string)
    ensures !IsVersionNewer(v, v)
  {
    var l := Components(v);
    NewerFromIsLexicographic(l, l, 0);
  }

  lemma {:induction false} NewerFromAsymmetric(l: seq<Option<int>>, c: seq<Option<int>>, i: nat)
    ensures NewerFrom(l, c, i) ==> !NewerFrom(c, l, i)
    decreases 3 - i
  {
    if i < 3 && Readable(l, c, i) && l[i].value == c[i].value {
      NewerFromAsymmetric(l, c, i + 1);
    }
  }

  /** Of two versions at most one is newer than the other. */
  lemma Asymmetric(a: string, b: string)
    ensures IsVersionNewer(a, b) ==> !IsVersionNewer(b, a)
  {
    NewerFromAsymmetric(Components(a), Components(b), 0);
  }

  // ---------------------------------------------------------------------
  // Dotted version strings
  // ---------------------------------------------------------------------

  /** Components written in decimal and joined with dots, such as `1.10.3`. */
  function Dotted(ns: seq<nat>): string {
    Join(seq(|ns|, i requires 0 <= i < |ns| => NatToString(ns[i])), ".")
  }

  lemma NoDot(n: nat)
    ensures '.' !in NatToString(n)
  {
    var s := NatToString(n);
    assert forall i :: 0 <= i < |s| ==> s[i] != '.';
  }

  lemma ParseNat(n: nat)
    ensures ParseInt(NatToString(n)) == Some(n)
  {
    ParseIntRoundTrip(n, "");
    assert NatToString(n) + "" == NatToString(n);
  }

  /** Pieces without a dot, joined with dots, are read back piece by piece. */
  lemma {:induction false} ComponentsOfJoin(parts: seq<string>)
    requires |parts| >= 1 && forall i :: 0 <= i < |parts| ==> '.' !in parts[i]
    ensures Components(Join(parts, ".")) == seq(|parts|, i requires 0 <= i < |parts| => ParseInt(parts[i]))
  {
    SplitJoin(parts, '.');
  }

  /** Every component of a dotted version is read back as the number written. */
  lemma {:induction false} DottedComponents(ns: seq<nat>)
    requires |ns| >= 1
    ensures Components(Dotted(ns)) == seq(|ns|, i requires 0 <= i < |ns| => Some(ns[i]))
  {
    var parts := seq(|ns|, i requires 0 <= i < |ns| => NatToString(ns[i]));
    forall i | 0 <= i < |ns| ensures '.' !in parts[i] && ParseInt(parts[i]) == Some(ns[i]) {
      NoDot(ns[i]);
      ParseNat(ns[i]);
    }
    ComponentsOfJoin(parts);
  }

  /** Component lists read from three numbers. */
  lemma ReadTriples(ns: seq<nat>, l: seq<Option<int>>)
    requires |ns| == 3 && l == seq(|ns|, i requires 0 <= i < |ns| => Some(ns[i]))
    ensures l == [Some(ns[0]), Some(ns[1]), Some(ns[2])]
  {
  }

  lemma TripleOrder(a: nat, b: nat, c: nat, x: nat, y: nat, z: nat)
    ensures NewerFrom([Some(a), Some(b), Some(c)], [Some(x), Some(y), Some(z)], 0)
            <==> a > x || (a == x && (b > y || (b == y && c > z)))
  {
  }

  /** For dotted triples of numbers, newer is the lexicographic order of the triples. */
  lemma {:induction false} TriplesCompareLexicographically(a: nat, b: nat, c: nat, x: nat, y: nat, z: nat)
    ensures IsVersionNewer(Dotted([a, b, c]), Dotted([x, y, z]))
            <==> a > x || (a == x && (b > y || (b == y && c > z)))
  {
    DottedComponents([a, b, c]);
    DottedComponents([x, y, z]);
    ReadTriples([a, b, c], Components(Dotted([a, b, c])));
    ReadTriples([x, y, z], Components(Dotted([x, y, z])));
    TripleOrder(a, b, c, x, y, z);
  }

  /** A version with only two components is never newer than one that agrees on them, nor the other way round. */
  lemma {:induction false} MissingComponentStops(a: nat, b: nat, c: nat)
    ensures !IsVersionNewer(Dotted([a, b]), Dotted([a, b, c]))
    ensures !IsVersionNewer(Dotted([a, b, c]), Dotted([a, b]))
  {
    DottedComponents([a, b]);
    DottedComponents([a, b, c]);
    var l := Components(Dotted([a, b]));
    var r := Components(Dotted([a, b, c]));
    assert l == [Some(a), Some(b)];
    assert r == [Some(a), Some(b), Some(c)];
  }

  lemma StopsAtUnreadable(l: seq<Option<int>>, r: seq<Option<int>>)
    requires |l| >= 2 && |r| >= 1 && l[0].Some? && l[0] == r[0] && l[1].None?
    ensures !NewerFrom(l, r, 0)
  {
  }

  /**
   * An unreadable second component (as in `1.a.0`) stops the comparison,
   * even when the third component would decide.
   */
  lemma {:induction false} UnreadableComponentStops(a: nat, bad: string, c: nat, y: nat, z: nat)
    requires |bad| > 0 && '.' !in bad && !IsWhitespace(bad[0]) && !IsDigit(bad[0]) && bad[0] != '-' && bad[0] != '+'
    ensures !IsVersionNewer(Join([NatToString(a), bad, NatToString(c)], "."), Dotted([a, y, z]))
  {
    var parts := [NatToString(a), bad, NatToString(c)];
    NoDot(a);
    NoDot(c);
    ComponentsOfJoin(parts);
    ParseNat(a);
    NotANumber(bad);
    DottedComponents([a, y, z]);
    var l := Components(Join(parts, "."));
    var r := Components(Dotted([a, y, z]));
    assert l[0] == Some(a) && l[1] == None;
    assert r[0] == Some(a);
    StopsAtUnreadable(l, r);
  }
}

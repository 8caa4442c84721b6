/**
 * `isTrue` and `isFalse`: reading an optional environment value as a
 * boolean switch. The value is trimmed and lowercased, then compared
 * against a fixed set of words; an absent value is neither.
 */
module Flags {
  import opened Wrappers
  import opened Strings

  const TrueWords: set<string> := {"true", "1", "yes", "on"}
  const FalseWords: set<string> := {"false", "0", "no", "off"}

  /** The value as both functions compare it. */
  function Canonical(v: string): string {
    ToLower(Trim(v))
  }

  /** `isTrue`. */
  function IsTrue(v: Option<string>): (r: bool)
    ensures r ==> v.Some? && |Trim(v.value)| <= 4
  {
    v.Some? && Canonical(v.value) in TrueWords
  }

  /** `isFalse`. */
  function IsFalse(v: Option<string>): (r: bool)
    ensures r ==> v.Some? && |Trim(v.value)| <= 5
  {
    v.Some? && Canonical(v.value) in FalseWords
  }

  /** No value is both on and off; an absent value is neither. */
  lemma NeverBoth(v: Option<string>)
    ensures !(IsTrue(v) && IsFalse(v))
    ensures v.None? ==> !IsTrue(v) && !IsFalse(v)
  {
    if v.Some? {
      WordsDisjoint(Canonical(v.value));
    }
  }

  lemma WordsDisjoint(w: string)
    ensures !(w in TrueWords && w in FalseWords)
  {
  }

  /** White space around the value is irrelevant. */
  lemma {:induction false} PaddingIgnored(pre: string, v: string, post: string)
    requires AllWhitespace(pre) && AllWhitespace(post)
    ensures IsTrue(Some(pre + v + post)) == IsTrue(Some(v))
    ensures IsFalse(Some(pre + v + post)) == IsFalse(Some(v))
  {
    TrimIgnoresPadding(pre, v, post);
  }

  /** Two values that agree up to letter case read the same. */
  lemma {:induction false} CaseIgnored(v: string, w: string)
    requires ToLower(v) == ToLower(w)
    ensures IsTrue(Some(v)) == IsTrue(Some(w))
    ensures IsFalse(Some(v)) == IsFalse(Some(w))
  {
    TrimLower(v);
    TrimLower(w);
  }

  /** Any casing of the true words reads as true, any casing of the false words as false. */
  lemma {:induction false} AnyCasing(v: string)
    ensures ToLower(v) in TrueWords ==> IsTrue(Some(v))
    ensures ToLower(v) in FalseWords ==> IsFalse(Some(v))
  {
    var l := ToLower(v);
    ToLowerIdempotent(v);
    CaseIgnored(v, l);
    if l in TrueWords || l in FalseWords {
      WordsUnpadded(l);
      assert Canonical(l) == l;
    }
  }

  lemma WordsUnpadded(w: string)
    requires w in TrueWords || w in FalseWords
    ensures Trim(w) == w
  {
    assert |w| > 0 && !IsWhitespace(w[0]) && !IsWhitespace(w[|w| - 1]);
    TrimUnpadded(w);
  }
}

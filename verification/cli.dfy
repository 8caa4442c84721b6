/**
 * `isHelpRequest` and `isVersionRequest`: whether some command-line
 * argument, lowercased, is one of the help or version spellings. The
 * program carries two identical copies of these functions (one beside the
 * shell helpers); both are this module.
 */
module Cli {
  import opened Strings

  const HelpVariants: set<string> := {"--help", "-h", "help"}
  const VersionVariants: set<string> := {"--version", "-v", "version"}

  /** `args.some(arg => variants.includes(arg.toLowerCase()))`, scanning left to right. */
  function AnyIn(args: seq<string>, variants: set<string>): (r: bool)
    ensures r <==> exists i :: 0 <= i < |args| && ToLower(args[i]) in variants
    decreases |args|
  {
    if |args| == 0 then false
    else if ToLower(args[0]) in variants then true
    else
      var rest := AnyIn(args[1..], variants);
      assert forall i :: 1 <= i < |args| ==> args[i] == args[1..][i - 1];
      rest
  }

  function IsHelpRequest(args: seq<string>): (r: bool)
    ensures |args| == 0 ==> !r
  {
    AnyIn(args, HelpVariants)
  }

  function IsVersionRequest(args: seq<string>): (r: bool)
    ensures |args| == 0 ==> !r
  {
    AnyIn(args, VersionVariants)
  }

  /** Where the request stands does not matter, and more arguments never withdraw it. */
  lemma {:induction false} RequestAnywhere(a: seq<string>, b: seq<string>, c: seq<string>, variants: set<string>)
    ensures AnyIn(b, variants) ==> AnyIn(a + b + c, variants)
    ensures AnyIn(a + b + c, variants) <==> AnyIn(a, variants) || AnyIn(b, variants) || AnyIn(c, variants)
  {
    var all := a + b + c;
    assert forall i :: 0 <= i < |a| ==> all[i] == a[i];
    assert forall i :: 0 <= i < |b| ==> all[|a| + i] == b[i];
    assert forall i :: 0 <= i < |c| ==> all[|a| + |b| + i] == c[i];
    if AnyIn(all, variants) {
      var i :| 0 <= i < |all| && ToLower(all[i]) in variants;
      if i < |a| {
        assert ToLower(a[i]) in variants;
      } else if i < |a| + |b| {
        assert ToLower(b[i - |a|]) in variants;
      } else {
        assert ToLower(c[i - |a| - |b|]) in variants;
      }
    }
  }

  /** Arguments that agree up to letter case give the same answer. */
  lemma {:induction false} CaseInsensitive(a: seq<string>, b: seq<string>, variants: set<string>)
    requires |a| == |b| && forall i :: 0 <= i < |a| ==> ToLower(a[i]) == ToLower(b[i])
    ensures AnyIn(a, variants) == AnyIn(b, variants)
  {
    if AnyIn(a, variants) {
      var i :| 0 <= i < |a| && ToLower(a[i]) in variants;
      assert ToLower(b[i]) in variants;
    }
    if AnyIn(b, variants) {
      var i :| 0 <= i < |b| && ToLower(b[i]) in variants;
      assert ToLower(a[i]) in variants;
    }
  }

  /** Upper-case spellings are requests too. */
  lemma UpperCaseRequests()
    ensures IsHelpRequest(["HELP"]) && IsVersionRequest(["VERSION"])
  {
    assert ToLower("HELP") == "help";
    assert ToLower("VERSION") == "version";
    assert ToLower(["HELP"][0]) in HelpVariants;
    assert ToLower(["VERSION"][0]) in VersionVariants;
  }
}

/**
 * The request tool for the running Harper API: when a call must be put to
 * the user before it runs, and the path that is requested. Deleting a whole
 * table or the root (a path with at most one non-empty segment) asks first;
 * deleting one record, and every other method, does not; a call the user
 * already approved never asks again. The request itself (the port, `fetch`,
 * the response text) is left out.
 */
module HarperApi {
  import opened Wrappers
  import opened Strings

  datatype Method = Post | Get | Put | Delete

  /** The non-empty strings of a list, in order (`filter(Boolean)`). */
  function NonEmpty(parts: seq<string>): (r: seq<string>)
    ensures forall i :: 0 <= i < |r| ==> r[i] != ""
    ensures |r| <= |parts|
  {
    if |parts| == 0 then []
    else (if parts[0] == "" then [] else [parts[0]]) + NonEmpty(parts[1..])
  }

  /** The non-empty `/`-separated segments of a path. */
  function Segments(path: string): seq<string> {
    NonEmpty(Split(path, '/'))
  }

  /**
   * `needsApproval`: an approved call id (a non-empty one) never asks;
   * otherwise only a DELETE with at most one segment asks. A missing path
   * counts as the empty one.
   */
  function NeedsApproval(callId: Option<string>, approved: set<string>, verb: Method, path: Option<string>): (r: bool)
    ensures r ==> verb == Delete
    ensures callId.Some? && callId.value != "" && callId.value in approved ==> !r
    ensures verb == Delete && path.None? && !(callId.Some? && callId.value != "" && callId.value in approved) ==> r
  {
    assert Split("", '/') == [""];
    assert NonEmpty([""]) == [] by {
      assert [""][1..] == [];
    }
    if callId.Some? && callId.value != "" && callId.value in approved then false
    else if verb == Delete then |Segments(path.GetOr(""))| <= 1
    else false
  }

  // ---------------------------------------------------------------------
  // Segments of the paths the tool is given
  // ---------------------------------------------------------------------

  /** A segment name: non-empty and without a separator. */
  predicate Name(s: string) {
    s != "" && '/' !in s
  }

  lemma {:induction false} NonEmptyAppend(a: seq<string>, b: seq<string>)
    ensures NonEmpty(a + b) == NonEmpty(a) + NonEmpty(b)
    decreases |a|
  {
    if |a| == 0 {
      assert a + b == b;
    } else {
      var head := if a[0] == "" then [] else [a[0]];
      assert (a + b)[0] == a[0] && (a + b)[1..] == a[1..] + b;
      assert NonEmpty(a + b) == head + NonEmpty(a[1..] + b);
      NonEmptyAppend(a[1..], b);
      Associative(head, NonEmpty(a[1..]), NonEmpty(b));
    }
  }

  lemma {:induction false} NonEmptyKeeps(parts: seq<string>)
    requires forall i :: 0 <= i < |parts| ==> parts[i] != ""
    ensures NonEmpty(parts) == parts
    decreases |parts|
  {
    if |parts| > 0 {
      NonEmptyKeeps(parts[1..]);
    }
  }

  /** Names joined with `/` are its segments. */
  lemma {:induction false} JoinedNames(names: seq<string>)
    requires |names| >= 1 && forall i :: 0 <= i < |names| ==> Name(names[i])
    ensures Segments(Join(names, "/")) == names
  {
    SplitJoin(names, '/');
    NonEmptyKeeps(names);
  }

  /** A leading separator adds no segment. */
  lemma {:induction false} LeadingSlash(p: string)
    ensures Segments("/" + p) == Segments(p)
  {
    SplitAtFirst("", '/', p);
    assert "" + ['/'] + p == "/" + p;
    NonEmptyAppend([""], Split(p, '/'));
  }

  /** A trailing separator adds no segment. */
  lemma {:induction false} TrailingSlash(p: string)
    ensures Segments(p + "/") == Segments(p)
  {
    var parts := Split(p, '/');
    JoinSplit(p, '/');
    SplitJoinPrefix(parts, '/', "");
    SplitNoSeparator("", '/');
    assert Join(parts, ['/']) + ['/'] + "" == p + "/";
    NonEmptyAppend(parts, [""]);
    assert NonEmpty([""]) == [];
    assert NonEmpty(parts) + [] == NonEmpty(parts);
  }

  /** The empty path and the root have no segment, so deleting them asks. */
  lemma RootAsks(callId: Option<string>, approved: set<string>)
    requires callId.None? || callId.value !in approved
    ensures NeedsApproval(callId, approved, Delete, Some(""))
    ensures NeedsApproval(callId, approved, Delete, Some("/"))
    ensures NeedsApproval(callId, approved, Delete, None)
  {
    SplitNoSeparator("", '/');
    LeadingSlash("");
    assert "/" + "" == "/";
  }

  /** Deleting a whole table, `/Table` or `/Table/`, asks. */
  lemma {:induction false} TableDeleteAsks(callId: Option<string>, approved: set<string>, table: string)
    requires callId.None? || callId.value !in approved
    requires Name(table)
    ensures NeedsApproval(callId, approved, Delete, Some("/" + table))
    ensures NeedsApproval(callId, approved, Delete, Some("/" + table + "/"))
  {
    JoinedNames([table]);
    LeadingSlash(table);
    TrailingSlash("/" + table);
  }

  /** Deleting one record, `/Table/id` with or without a trailing `/`, does not ask. */
  lemma {:induction false} RecordDeleteGoesAhead(callId: Option<string>, approved: set<string>, table: string, id: string)
    requires Name(table) && Name(id)
    ensures !NeedsApproval(callId, approved, Delete, Some("/" + table + "/" + id))
    ensures !NeedsApproval(callId, approved, Delete, Some("/" + table + "/" + id + "/"))
  {
    var p := table + "/" + id;
    assert Join([table, id], "/") == p;
    JoinedNames([table, id]);
    LeadingSlash(p);
    assert "/" + table + "/" + id == "/" + p;
    TrailingSlash("/" + p);
  }

  /** Without an approval, a DELETE asks exactly when the path names at most one segment. */
  lemma DeleteAsksWhenShallow(callId: Option<string>, approved: set<string>, path: string)
    requires callId.None? || callId.value !in approved
    ensures NeedsApproval(callId, approved, Delete, Some(path)) <==> |Segments(path)| <= 1
  {
  }

  // ---------------------------------------------------------------------
  // The requested path
  // ---------------------------------------------------------------------

  /** The path part of the request URL: a `/` is put in front when missing. */
  function RequestPath(path: string): (r: string)
    ensures StartsWith(r, "/")
    ensures StartsWith(path, "/") <==> r == path
    ensures !StartsWith(path, "/") ==> r == "/" + path
  {
    if StartsWith(path, "/") then path else "/" + path
  }

  /** Normalising the request path twice changes nothing more. */
  lemma RequestPathIdempotent(path: string)
    ensures RequestPath(RequestPath(path)) == RequestPath(path)
  {
  }

  /** The requested path names the same segments the approval rule looked at. */
  lemma {:induction false} RequestPathKeepsSegments(path: string)
    ensures Segments(RequestPath(path)) == Segments(path)
  {
    if !StartsWith(path, "/") {
      LeadingSlash(path);
    }
  }
}

/**
 * Conversation items as the session stores see them, the `excludeFalsy`
 * filter the compaction sessions apply before re-adding items, and the
 * system notice that compaction inserts.
 */
module Items {
  import opened Wrappers
  import opened Strings

  datatype Role = User | Assistant | System | ToolCall | ToolResult

  /**
   * One element of an item's content array. A block may carry a string
   * `text`, a string `content`, both or neither; a bare string part and a
   * null part are the other shapes the token estimator distinguishes.
   */
  datatype Part =
    | NullPart
    | StringPart(s: string)
    | Block(text: Option<string>, content: Option<string>)

  datatype Content =
    | NoContent
    | TextContent(s: string)
    | Parts(parts: seq<Part>)

  /**
   * A conversation item (message, system notice, tool call or tool result),
   * or `Absent` for a falsy entry (`null`/`undefined`) in an item list.
   */
  datatype Item =
    | Absent
    | Message(id: Option<string>, role: Role, content: Content, text: Option<string>)

  predicate NoAbsent(items: seq<Item>) {
    forall i :: 0 <= i < |items| ==> items[i] != Absent
  }

  /** `items.filter(excludeFalsy)`: the present items, in their original order. */
  function ExcludeFalsy(items: seq<Item>): (r: seq<Item>)
    ensures NoAbsent(r)
    ensures |r| <= |items|
    ensures forall x :: x in r <==> x in items && x != Absent
  {
    if |items| == 0 then []
    else if items[|items| - 1] == Absent then ExcludeFalsy(items[..|items| - 1])
    else ExcludeFalsy(items[..|items| - 1]) + [items[|items| - 1]]
  }

  /** Filtering a list without falsy entries changes nothing. */
  lemma {:induction false} ExcludeFalsyKeepsPresent(items: seq<Item>)
    requires NoAbsent(items)
    ensures ExcludeFalsy(items) == items
    decreases |items|
  {
    if |items| > 0 {
      ExcludeFalsyKeepsPresent(items[..|items| - 1]);
    }
  }

  /** Filtering distributes over concatenation. */
  lemma {:induction false} ExcludeFalsyAppend(a: seq<Item>, b: seq<Item>)
    ensures ExcludeFalsy(a + b) == ExcludeFalsy(a) + ExcludeFalsy(b)
    decreases |b|
  {
    if |b| == 0 {
      assert a + b == a;
    } else {
      assert (a + b)[..|a + b| - 1] == a + b[..|b| - 1];
      ExcludeFalsyAppend(a, b[..|b| - 1]);
    }
  }

  // ---------------------------------------------------------------------
  // The compaction notice
  // ---------------------------------------------------------------------

  const NoticeMarker: string := "... conversation history compacted"
  const FallbackNotice: string := NoticeMarker + " ..."

  /**
   * The notice text: the literal fallback when there is no summary (no
   * model, a failed call or an empty summary), otherwise the summary
   * wrapped in the same marker.
   */
  function NoticeText(summary: Option<string>): (r: string)
    ensures StartsWith(r, NoticeMarker)
    ensures summary.None? || summary == Some("") ==> r == FallbackNotice
    ensures summary.Some? && summary.value != "" ==>
              r == "... conversation history compacted: " + summary.value + " ..."
  {
    match summary
    case Some(s) => if s != "" then NoticeMarker + ": " + s + " ..." else FallbackNotice
    case None => FallbackNotice
  }

  /** `system(text)`: a system-role message with plain string content and no id. */
  function SystemNotice(text: string): Item {
    Message(None, System, TextContent(text), None)
  }

  /**
   * Both notices carry the "compacted" marker, and a summarised notice is
   * never the literal fallback, so the two paths are distinguishable.
   */
  lemma NoticeDistinguishable(summary: Option<string>)
    ensures Contains(NoticeText(summary), "compacted")
    ensures (summary.Some? && summary.value != "") <==> NoticeText(summary) != FallbackNotice
  {
    var r := NoticeText(summary);
    assert NoticeMarker[25..34] == "compacted";
    assert r[25..34] == NoticeMarker[25..34];
    assert OccursAt(r, "compacted", 25);
    if summary.Some? && summary.value != "" {
      assert |r| == |summary.value| + |NoticeMarker| + 6;
    }
  }
}

/**
 * The older, count-triggered compaction wrapper: once the number of items
 * added since the last compaction reaches a threshold (20 by default) it
 * rewrites the store to the first item, a system notice and the last five
 * items. The notice carries a model-written summary when a model is
 * configured and answers with non-empty text, else a literal fallback;
 * a failing model call never escapes.
 */
module CountCompaction {
  import opened Wrappers
  import opened Strings
  import opened Items

  const DefaultThreshold: int := 20
  const KeepRecent: nat := 5

  /** One content part of a model output item: its `type` and `text`. */
  datatype OutputPart = OutputPart(kind: string, text: string)

  /** A model output item; `role` is absent for outputs that are not messages. */
  datatype OutputItem = OutputItem(role: Option<Role>, content: seq<OutputPart>)

  /** The outcome of the summarisation call. */
  datatype Reply = Threw | Replied(output: seq<OutputItem>)

  datatype Session = Session(
    items: seq<Item>,   // the underlying session's items
    counter: nat,       // items added since the last compaction
    threshold: int,
    hasModel: bool)     // whether a summarisation model was supplied

  function New(initial: seq<Item>, threshold: Option<int>, hasModel: bool): (r: Session)
    ensures threshold.None? ==> r.threshold == DefaultThreshold
    ensures threshold.Some? ==> r.threshold == threshold.value
    ensures r.items == initial && r.counter == 0
  {
    Session(initial, 0, threshold.GetOr(DefaultThreshold), hasModel)
  }

  // ---------------------------------------------------------------------
  // The summary
  // ---------------------------------------------------------------------

  /** The `output_text` texts of one message's content, in order. */
  function OutputTexts(parts: seq<OutputPart>): seq<string> {
    if |parts| == 0 then []
    else (if parts[0].kind == "output_text" then [parts[0].text] else []) + OutputTexts(parts[1..])
  }

  /** The `output_text` texts of every assistant output, in order. */
  function AssistantTexts(output: seq<OutputItem>): seq<string> {
    if |output| == 0 then []
    else (if output[0].role == Some(Assistant) then OutputTexts(output[0].content) else [])
         + AssistantTexts(output[1..])
  }

  function Summary(output: seq<OutputItem>): string {
    Join(AssistantTexts(output), "\n")
  }

  /** The notice text for a configured model and the reply it gave. */
  function NoticeContent(hasModel: bool, reply: Reply): (r: string)
    ensures !hasModel || reply.Threw? ==> r == FallbackNotice
    ensures hasModel && reply.Replied? && Summary(reply.output) == "" ==> r == FallbackNotice
    ensures hasModel && reply.Replied? && Summary(reply.output) != "" ==>
              r == "... conversation history compacted: " + Summary(reply.output) + " ..."
  {
    NoticeText(if hasModel && reply.Replied? then Some(Summary(reply.output)) else None)
  }

  /** A reply holding one assistant message with one text part is summarised by that text. */
  lemma SingleAnswerSummary(t: string)
    ensures Summary([OutputItem(Some(Assistant), [OutputPart("output_text", t)])]) == t
  {
    var out := [OutputItem(Some(Assistant), [OutputPart("output_text", t)])];
    assert OutputTexts(out[0].content) == [t] by {
      assert OutputTexts(out[0].content[1..]) == [];
    }
    assert AssistantTexts(out[1..]) == [];
  }

  /** Outputs without assistant messages give an empty summary, hence the fallback notice. */
  lemma {:induction false} NoAssistantNoSummary(output: seq<OutputItem>)
    requires forall i :: 0 <= i < |output| ==> output[i].role != Some(Assistant)
    ensures AssistantTexts(output) == []
    ensures NoticeContent(true, Replied(output)) == FallbackNotice
    decreases |output|
  {
    if |output| > 0 {
      NoAssistantNoSummary(output[1..]);
    }
  }

  // ---------------------------------------------------------------------
  // Compaction
  // ---------------------------------------------------------------------

  /** The rewritten store: anchor, notice, last five items, without falsy entries. */
  function Rewrite(items: seq<Item>, notice: string): seq<Item>
    requires |items| > 6
  {
    ExcludeFalsy([items[0], SystemNotice(notice)] + items[|items| - KeepRecent..])
  }

  /**
   * `runCompaction`: no change on at most one item; otherwise the counter
   * is reset, and above six items the store is rewritten.
   */
  function RunCompaction(s: Session, reply: Reply): (r: Session)
    ensures |s.items| <= 1 ==> r == s
    ensures |s.items| > 1 ==> r.counter == 0 && r.threshold == s.threshold && r.hasModel == s.hasModel
    ensures 1 < |s.items| <= 6 ==> r.items == s.items
    ensures |s.items| > 6 ==> r.items == Rewrite(s.items, NoticeContent(s.hasModel, reply))
    ensures |s.items| > 6 && NoAbsent(s.items) ==>
              && |r.items| == 2 + KeepRecent
              && r.items[0] == s.items[0]
              && r.items[1] == SystemNotice(NoticeContent(s.hasModel, reply))
              && r.items[2..] == s.items[|s.items| - KeepRecent..]
  {
    if |s.items| <= 1 then s
    else if |s.items| <= 6 then s.(counter := 0)
    else
      var out := [s.items[0], SystemNotice(NoticeContent(s.hasModel, reply))] + s.items[|s.items| - KeepRecent..];
      assert NoAbsent(s.items) ==> NoAbsent(out) && ExcludeFalsy(out) == out by {
        if NoAbsent(s.items) {
          assert forall i :: 2 <= i < |out| ==> out[i] == s.items[|s.items| - KeepRecent + (i - 2)];
          ExcludeFalsyKeepsPresent(out);
        }
      }
      s.(items := ExcludeFalsy(out), counter := 0)
  }

  /** `addItems`: append, count, and compact once the count reaches the threshold. */
  function AddItems(s: Session, items: seq<Item>, reply: Reply): (r: Session)
    ensures s.counter + |items| < s.threshold ==>
              r == s.(items := s.items + items, counter := s.counter + |items|)
    ensures s.counter + |items| >= s.threshold ==>
              r == RunCompaction(s.(items := s.items + items, counter := s.counter + |items|), reply)
  {
    var grown := s.(items := s.items + items, counter := s.counter + |items|);
    if grown.counter >= s.threshold then RunCompaction(grown, reply) else grown
  }

  /** `clearSession`: counter zeroed and store emptied. */
  function ClearSession(s: Session): (r: Session)
    ensures r.items == [] && r.counter == 0 && r.threshold == s.threshold && r.hasModel == s.hasModel
  {
    s.(items := [], counter := 0)
  }

  /** `popItem`: delegated to the underlying session. */
  function PopItem(s: Session): (r: (Option<Item>, Session))
    ensures |s.items| == 0 ==> r.0 == None && r.1 == s
    ensures |s.items| > 0 ==> r.0 == Some(s.items[|s.items| - 1]) && r.1 == s.(items := s.items[..|s.items| - 1])
  {
    if |s.items| == 0 then (None, s)
    else (Some(s.items[|s.items| - 1]), s.(items := s.items[..|s.items| - 1]))
  }

  // ---------------------------------------------------------------------
  // Properties over several calls
  // ---------------------------------------------------------------------

  /** Whenever an addition triggers compaction, at most seven items remain. */
  lemma TriggeredAdditionIsBounded(s: Session, items: seq<Item>, reply: Reply)
    requires s.counter + |items| >= s.threshold
    ensures |AddItems(s, items, reply).items| <= 2 + KeepRecent
  {
  }

  lemma AnchorLeadsRewrite(items: seq<Item>, notice: string)
    requires |items| > 6 && items[0] != Absent
    ensures |Rewrite(items, notice)| > 0 && Rewrite(items, notice)[0] == items[0]
  {
    var rest := [SystemNotice(notice)] + items[|items| - KeepRecent..];
    assert [items[0], SystemNotice(notice)] + items[|items| - KeepRecent..] == [items[0]] + rest;
    ExcludeFalsyAppend([items[0]], rest);
    assert ExcludeFalsy([items[0]]) == [items[0]] by {
      assert [items[0]][..0] == [];
    }
  }

  /**
   * The first item survives any number of additions, compactions and
   * summarisation outcomes, as long as it is a real item.
   */
  lemma {:induction false} AnchorSurvivesAdditions(s: Session, batches: seq<(seq<Item>, Reply)>)
    requires |s.items| > 0 && s.items[0] != Absent
    ensures |AddAll(s, batches).items| > 0 && AddAll(s, batches).items[0] == s.items[0]
    decreases |batches|
  {
    if |batches| > 0 {
      var grown := s.(items := s.items + batches[0].0, counter := s.counter + |batches[0].0|);
      var next := AddItems(s, batches[0].0, batches[0].1);
      assert grown.items[0] == s.items[0];
      if grown.counter >= s.threshold && |grown.items| > 6 {
        AnchorLeadsRewrite(grown.items, NoticeContent(s.hasModel, batches[0].1));
      }
      assert |next.items| > 0 && next.items[0] == s.items[0];
      AnchorSurvivesAdditions(next, batches[1..]);
    }
  }

  function AddAll(s: Session, batches: seq<(seq<Item>, Reply)>): Session
    decreases |batches|
  {
    if |batches| == 0 then s else AddAll(AddItems(s, batches[0].0, batches[0].1), batches[1..])
  }
}

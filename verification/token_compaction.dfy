/**
 * The token-aware compaction wrapper around an underlying session: it
 * appends through the underlying store, counts items added since the last
 * compaction, tracks the skills read, and after every addition decides
 * whether to compact (at least 5 items, and either forced, or no positive
 * token threshold, or an estimate at or above the threshold).
 *
 * The compaction itself (`compactConversation`) is not part of this
 * model: it is a function-valued parameter. `ReferenceCompact` gives the
 * shape the end-to-end test asserts (anchor, notice, last three items).
 */
module TokenCompaction {
  import opened Wrappers
  import opened Strings
  import opened Items

  /** The fields of the compaction arguments the gate reads. */
  datatype Args = Args(force: bool, always: bool, trigger: Option<string>)

  predicate IsForced(args: Option<Args>) {
    args.Some? && (args.value.force || args.value.always || args.value.trigger == Some("force"))
  }

  // ---------------------------------------------------------------------
  // Token estimate: ceil(code units / 4), counted with `length`
  // ---------------------------------------------------------------------

  /** Code units of one content-array part: `text`, else `content`, else a bare string. */
  function PartChars(p: Part): nat {
    match p
    case NullPart => 0
    case StringPart(s) => Utf16Length(s)
    case Block(text, content) =>
      if text.Some? then Utf16Length(text.value) else if content.Some? then Utf16Length(content.value) else 0
  }

  function PartsChars(ps: seq<Part>): nat {
    if |ps| == 0 then 0 else PartsChars(ps[..|ps| - 1]) + PartChars(ps[|ps| - 1])
  }

  /** Code units of one item: its content (array or string) plus a top-level `text`. */
  function ItemChars(it: Item): nat {
    match it
    case Absent => 0
    case Message(_, _, content, text) =>
      (match content
       case Parts(ps) => PartsChars(ps)
       case TextContent(s) => Utf16Length(s)
       case NoContent => 0)
      + (if text.Some? then Utf16Length(text.value) else 0)
  }

  function TotalChars(items: seq<Item>): nat {
    if |items| == 0 then 0 else TotalChars(items[..|items| - 1]) + ItemChars(items[|items| - 1])
  }

  /** The rough token estimate: the least n with 4 * n >= UTF-16 code units. */
  function EstimateTokens(items: seq<Item>): (r: nat)
    ensures 4 * r >= TotalChars(items)
    ensures 4 * r < TotalChars(items) + 4
  {
    (TotalChars(items) + 3) / 4
  }

  lemma {:induction false} TotalCharsAppend(a: seq<Item>, b: seq<Item>)
    ensures TotalChars(a + b) == TotalChars(a) + TotalChars(b)
    decreases |b|
  {
    if |b| == 0 {
      assert a + b == a;
    } else {
      assert (a + b)[..|a + b| - 1] == a + b[..|b| - 1];
      TotalCharsAppend(a, b[..|b| - 1]);
    }
  }

  /**
   * A single-message text counts its UTF-16 code units: at least one token per
   * four characters, and exactly that when every character is in the Basic
   * Multilingual Plane.
   */
  lemma TextEstimate(id: Option<string>, role: Role, s: string)
    ensures var n := EstimateTokens([Message(id, role, TextContent(s), None)]);
            4 * n >= |s| && 4 * n < 2 * |s| + 4
    ensures (forall i :: 0 <= i < |s| ==> s[i] as int < 0x10000) ==>
            EstimateTokens([Message(id, role, TextContent(s), None)]) == (|s| + 3) / 4
  {
    SingleTextChars(id, role, s);
    Utf16LengthBasicPlane(s);
  }

  /** An emoji adds two code units to a text, not one. */
  lemma EmojiCountsTwice(id: Option<string>, role: Role, s: string)
    ensures EstimateTokens([Message(id, role, TextContent(s + ['\U{1F600}']), None)])
            == (Utf16Length(s) + 5) / 4
  {
    SingleTextChars(id, role, s + ['\U{1F600}']);
    Utf16LengthAppend(s, ['\U{1F600}']);
    assert Utf16Length(['\U{1F600}']) == 2 by {
      assert ['\U{1F600}'][..0] == [];
    }
  }

  lemma SingleTextChars(id: Option<string>, role: Role, s: string)
    ensures TotalChars([Message(id, role, TextContent(s), None)]) == Utf16Length(s)
  {
    assert [Message(id, role, TextContent(s), None)][..0] == [];
  }

  /** Appending items never lowers the estimate. */
  lemma EstimateMonotone(a: seq<Item>, b: seq<Item>)
    ensures EstimateTokens(a) <= EstimateTokens(a + b)
  {
    TotalCharsAppend(a, b);
  }

  // ---------------------------------------------------------------------
  // Skills read
  // ---------------------------------------------------------------------

  /** Whether the underlying session tracks skills itself, and whether reading them throws. */
  datatype SkillSupport = Unsupported | Supported(read: seq<string>, readThrows: bool)

  predicate NoDuplicates(xs: seq<string>) {
    forall i, j :: 0 <= i < j < |xs| ==> xs[i] != xs[j]
  }

  /** `Array.from(new Set(xs))`: first occurrences, in order. */
  function Dedup(xs: seq<string>): (r: seq<string>)
    ensures NoDuplicates(r)
    ensures forall x :: x in r <==> x in xs
  {
    if |xs| == 0 then []
    else
      var d := Dedup(xs[..|xs| - 1]);
      if xs[|xs| - 1] in d then d else d + [xs[|xs| - 1]]
  }

  /** `set.add(x)` on an insertion-ordered set. */
  function SetAdd(xs: seq<string>, x: string): seq<string> {
    if x in xs then xs else xs + [x]
  }

  // ---------------------------------------------------------------------
  // The session
  // ---------------------------------------------------------------------

  datatype Session = Session(
    items: seq<Item>,            // the underlying session's items
    skills: SkillSupport,        // the underlying session's own skill tracking
    localSkills: seq<string>,    // skills recorded here when the underlying cannot
    counter: nat,                // items added since the last compaction
    triggerTokens: Option<int>)  // the token threshold, if the compaction model has one

  /**
   * The constructor: a threshold is looked up only when a compaction model
   * is configured; the lookup itself is a parameter.
   */
  function New(underlying: seq<Item>, skills: SkillSupport, compactionModel: string, lookup: Option<int>): (r: Session)
    ensures r.items == underlying && r.counter == 0 && r.localSkills == []
    ensures compactionModel == "" ==> r.triggerTokens == None
    ensures compactionModel != "" ==> r.triggerTokens == lookup
  {
    Session(underlying, skills, [], 0, if compactionModel != "" then lookup else None)
  }

  predicate ThresholdActive(s: Session) {
    s.triggerTokens.Some? && s.triggerTokens.value > 0
  }

  /** The gate of `runCompaction`, stated as when compaction does happen. */
  predicate WouldCompact(s: Session, args: Option<Args>) {
    && |s.items| > 4
    && (IsForced(args) || !ThresholdActive(s) || EstimateTokens(s.items) >= s.triggerTokens.value)
  }

  /**
   * `runCompaction`: either nothing changes, or the store holds exactly the
   * compactor's output without falsy entries and the counter is zero.
   */
  function RunCompaction(s: Session, args: Option<Args>, compact: seq<Item> -> seq<Item>): (r: Session)
    ensures |s.items| <= 1 ==> r == s
    ensures |s.items| <= 4 ==> r == s
    ensures !IsForced(args) && ThresholdActive(s) && EstimateTokens(s.items) < s.triggerTokens.value ==> r == s
    ensures |s.items| > 4 && !ThresholdActive(s) ==> r == s.(items := ExcludeFalsy(compact(s.items)), counter := 0)
    ensures |s.items| > 4 && IsForced(args) ==> r == s.(items := ExcludeFalsy(compact(s.items)), counter := 0)
    ensures WouldCompact(s, args) ==> r == s.(items := ExcludeFalsy(compact(s.items)), counter := 0)
    ensures !WouldCompact(s, args) ==> r == s
  {
    if |s.items| <= 1 then s
    else if !IsForced(args) && ThresholdActive(s) && EstimateTokens(s.items) < s.triggerTokens.value then s
    else if |s.items| <= 4 then s
    else s.(items := ExcludeFalsy(compact(s.items)), counter := 0)
  }

  /**
   * `addItems`: append through the underlying session, count the new
   * items, then run the unforced compaction check.
   */
  function AddItems(s: Session, items: seq<Item>, compact: seq<Item> -> seq<Item>): (r: Session)
    ensures r.skills == s.skills && r.localSkills == s.localSkills && r.triggerTokens == s.triggerTokens
    ensures var grown := s.(items := s.items + items, counter := s.counter + |items|);
            if WouldCompact(grown, None) then r.items == ExcludeFalsy(compact(s.items + items)) && r.counter == 0
            else r.items == s.items + items && r.counter == s.counter + |items|
  {
    RunCompaction(s.(items := s.items + items, counter := s.counter + |items|), None, compact)
  }

  /** `clearSession`: the counter is zeroed and the underlying store emptied. */
  function ClearSession(s: Session): (r: Session)
    ensures r.items == [] && r.counter == 0
    ensures r.skills == s.skills && r.localSkills == s.localSkills && r.triggerTokens == s.triggerTokens
  {
    s.(items := [], counter := 0)
  }

  /** `popItem`: delegated to the underlying session. */
  function PopItem(s: Session): (r: (Option<Item>, Session))
    ensures |s.items| == 0 ==> r.0 == None && r.1 == s
    ensures |s.items| > 0 ==> r.0 == Some(s.items[|s.items| - 1]) && r.1 == s.(items := s.items[..|s.items| - 1])
  {
    if |s.items| == 0 then (None, s)
    else (Some(s.items[|s.items| - 1]), s.(items := s.items[..|s.items| - 1]))
  }

  /** `addSkillRead`: delegated when the underlying session tracks skills, else recorded locally. */
  function AddSkillRead(s: Session, skill: string): (r: Session)
    ensures s.skills.Unsupported? ==> r.localSkills == SetAdd(s.localSkills, skill) && r.skills == s.skills
    ensures s.skills.Supported? ==>
              (&& r.localSkills == s.localSkills && r.skills.Supported?
               && skill in r.skills.read && r.skills.readThrows == s.skills.readThrows)
    ensures r.items == s.items && r.counter == s.counter
  {
    match s.skills
    case Unsupported => s.(localSkills := SetAdd(s.localSkills, skill))
    case Supported(read, throws) => s.(skills := Supported(SetAdd(read, skill), throws))
  }

  /**
   * `getSkillsRead`: the duplicate-free union of the underlying session's
   * skills (none when it has no such method or reading throws) and the
   * local ones.
   */
  function GetSkillsRead(s: Session): (r: seq<string>)
    ensures NoDuplicates(r)
    ensures forall x :: x in r <==> x in s.localSkills || (s.skills.Supported? && !s.skills.readThrows && x in s.skills.read)
  {
    var base := if s.skills.Supported? && !s.skills.readThrows then s.skills.read else [];
    Dedup(base + s.localSkills)
  }

  /** A recorded skill is reported back, unless the underlying session fails to read its own. */
  lemma AddThenGetSkill(s: Session, skill: string)
    requires !(s.skills.Supported? && s.skills.readThrows)
    ensures skill in GetSkillsRead(AddSkillRead(s, skill))
  {
  }

  // ---------------------------------------------------------------------
  // The compaction shape the end-to-end test asserts
  // ---------------------------------------------------------------------

  const KeepTail: nat := 3

  /**
   * Anchor, system notice (summary or literal fallback), last three items.
   * Lists of at most four items are never compacted and are returned as is.
   */
  function ReferenceCompact(summary: Option<string>, items: seq<Item>): (r: seq<Item>)
    ensures |items| > 4 ==> |r| == 2 + KeepTail && r[0] == items[0] && r[2..] == items[|items| - KeepTail..]
  {
    if |items| <= 4 then items
    else [items[0], SystemNotice(NoticeText(summary))] + items[|items| - KeepTail..]
  }

  /**
   * A forced compaction of N > 4 present items (the end-to-end scenario
   * uses N = 9) leaves five items: the original first item, a system
   * notice marked "compacted" (exactly the fallback when summarisation
   * failed, never the fallback when it produced text), and the original
   * last three items verbatim; the counter is zero.
   */
  lemma ForcedCompactionShape(s: Session, summary: Option<string>)
    requires |s.items| > 4 && NoAbsent(s.items)
    ensures var r := RunCompaction(s, Some(Args(true, false, None)), xs => ReferenceCompact(summary, xs));
            && |r.items| == 5
            && r.items[0] == s.items[0]
            && r.items[1].Message? && r.items[1].role == System
            && r.items[1].content == TextContent(NoticeText(summary))
            && Contains(NoticeText(summary), "compacted")
            && (summary.None? ==> NoticeText(summary) == FallbackNotice)
            && (summary.Some? && summary.value != "" ==> NoticeText(summary) != FallbackNotice)
            && r.items[2..] == s.items[|s.items| - 3..]
            && r.counter == 0
  {
    var out := ReferenceCompact(summary, s.items);
    assert NoAbsent(out) by {
      forall i | 0 <= i < |out| ensures out[i] != Absent {
        if i >= 2 {
          assert out[i] == s.items[|s.items| - 3 + (i - 2)];
        }
      }
    }
    ExcludeFalsyKeepsPresent(out);
    NoticeDistinguishable(summary);
  }

  /** Compaction checks on small stores are no-ops however often they run. */
  lemma {:induction false} SmallStoreStable(s: Session, runs: seq<Option<Args>>, compact: seq<Item> -> seq<Item>)
    requires |s.items| <= 4
    ensures RunAll(s, runs, compact) == s
    decreases |runs|
  {
    if |runs| > 0 {
      SmallStoreStable(s, runs[1..], compact);
    }
  }

  function RunAll(s: Session, runs: seq<Option<Args>>, compact: seq<Item> -> seq<Item>): Session
    decreases |runs|
  {
    if |runs| == 0 then s else RunAll(RunCompaction(s, runs[0], compact), runs[1..], compact)
  }
}

# harper-agent core, modelled in Dafny

This project models the decision logic of the `hairper` command-line agent in
Dafny: its conversation-session stores, the cost ledger, and the small string
and decision functions around them. Each source component is a module whose
state is an immutable datatype and whose operations are pure functions. The
contracts and lemmas state what the program promises about these operations.

- **Conversation items** (`Items`): items, roles and content parts. A falsy
  entry of an item list is the value `Absent`. The module also holds
  `excludeFalsy` and the text of the compaction notice.
- **Token-gated compaction session** (`TokenCompaction`,
  `utils/sessions/MemoryCompactionSession.ts`). It covers:
  - the `ceil(length / 4)` token estimate, where `length` counts UTF-16 code units as JavaScript strings do;
  - the gates of `runCompaction`: at most one item, the force flags, the token threshold, and at most four items;
  - the counter of items added since the last compaction;
  - the union of the skills read.

  The external `compactConversation` is a function parameter. A reference
  compactor with the documented shape (anchor, notice, last three items) is
  proved to produce the five-item result of a forced compaction.
- **Count-triggered compaction session** (`CountCompaction`,
  `utils/MemoryCompactionSession.ts`). `addItems` is triggered by a threshold
  that defaults to 20. With more than six items, `runCompaction` rewrites the
  history to the anchor, a system notice and the last five items. The notice
  comes from the model's summary, or is the literal fallback. The model's
  reply is a parameter: it either threw or returned output items.
- **Durable session** (`DiskSession`, `utils/sessions/DiskSession.ts`). An
  in-memory list is mirrored into a table of `(id, sessionId, payload)` rows
  that many sessions share. Ids are auto-incremented, and the payload encoding
  (JSONB or text) is recorded on each row. The store invariant is "memory
  equals this session's rows in id order". Every operation keeps it, leaves
  other sessions untouched, and reopening the table gives the same items back.
- **Cost ledger** (`Cost`, `utils/cost.ts`):
  - cached-token extraction and the cost formula, with prices as exact `real`s, and the `NaN` cost of a
    model name that the price table inherits from `Object.prototype`;
  - the per-turn running totals of `CostTracker`.
- **`.aiignore`** (`Aiignore`, `utils/aiignore.ts`):
  - parsing the ignore file into patterns;
  - matching a path against anchored and floating patterns.

  Path normalisation, resolution and relative paths are POSIX segment
  operations (`PosixPath`).
- **Shell-command path mentions** (`MentionsIgnored`, `utils/mentionsIgnoredPath.ts`):
  - the tokenising regular expression, as a scanner;
  - the loop that asks whether some candidate is ignored, as a method.
- **Argument parsing** (`ParseArgs`, `lifecycle/parseArgs.ts`):
  - `stripQuotes`;
  - the value-flag and boolean-flag loop;
  - environment overrides and provider-dependent defaults;
  - the tracing switch, which is a function on the environment.
- **Smaller modules**:
  - `isTrue`/`isFalse` (`Flags`).
  - `isHelpRequest`/`isVersionRequest` (`Cli`). `utils/cli.ts` and `utils/shell/cli.ts` hold identical copies, so one model serves both.
  - `isVersionNewer`, with JavaScript's `parseInt` (`Version`).
  - `isOpenAIModel`/`getModel` (`GetModel`), where the result is the provider choice.
  - `getEnv` (`GetEnv`), with the set of already-warned keys passed in and out.
  - The approval rule and request path of the Harper API tool (`HarperApi`).

`Wrappers` (an `Option` type) and `Strings` hold the shared helpers:
- prefix and suffix tests;
- JavaScript's `trim`;
- ASCII lower-casing;
- `split` and `join`, with their round-trip lemmas.

## Model

| member | source | states |
|---|---|---|
| Items.ExcludeFalsy | utils/sessions/MemoryCompactionSession.ts:126 | the filtered list holds no falsy entry, is no longer than the input, and contains exactly the input's present items |
| Items.ExcludeFalsyKeepsPresent | utils/MemoryCompactionSession.ts:131 | a list with no falsy entry passes the filter unchanged |
| Items.ExcludeFalsyAppend | utils/MemoryCompactionSession.ts:131 | filtering a concatenation filters each part, in order |
| Items.NoticeText | utils/MemoryCompactionSession.ts:90-119 | every notice starts with the "compacted" marker; no summary or an empty one gives the literal fallback, a summary is embedded between ": " and " ..." |
| Items.NoticeDistinguishable | utils/MemoryCompactionSession.ts:90-119 | a notice always contains "compacted", and it differs from the fallback exactly when a non-empty summary was given |
| TokenCompaction.EstimateTokens | utils/sessions/MemoryCompactionSession.ts:132-155 | the estimate is the ceiling of the UTF-16 code-unit count of all text divided by four |
| Strings.Utf16Length | utils/sessions/MemoryCompactionSession.ts:141 | a string is at least as long in UTF-16 code units as in characters and at most twice as long |
| Strings.Utf16LengthAppend | utils/sessions/MemoryCompactionSession.ts:141 | the code-unit length of a concatenation is the sum of the parts' lengths |
| Strings.Utf16LengthBasicPlane | utils/sessions/MemoryCompactionSession.ts:141 | the code-unit length equals the character count exactly when every character is below U+10000 |
| TokenCompaction.SingleTextChars | utils/sessions/MemoryCompactionSession.ts:137-142 | a single message with one text counts that text's code units |
| TokenCompaction.TextEstimate | utils/sessions/MemoryCompactionSession.ts:132-155 | one text of n characters is estimated between n/4 and (2n+3)/4 tokens, and at exactly ceil(n / 4) when all its characters are in the Basic Multilingual Plane |
| TokenCompaction.EmojiCountsTwice | utils/sessions/MemoryCompactionSession.ts:141-154 | an emoji outside the Basic Multilingual Plane adds two code units to the count behind the estimate |
| TokenCompaction.TotalCharsAppend | utils/sessions/MemoryCompactionSession.ts:133-153 | the character count of a concatenation is the sum of the parts' counts |
| TokenCompaction.EstimateMonotone | utils/sessions/MemoryCompactionSession.ts:133-155 | appending items never lowers the token estimate |
| TokenCompaction.Dedup | utils/sessions/MemoryCompactionSession.ts:59-60 | the merged list has no duplicates and has the same members as its input |
| TokenCompaction.New | utils/sessions/MemoryCompactionSession.ts:31-37 | a fresh session wraps the given store with a zero counter; a token threshold exists only when a compaction model is configured |
| TokenCompaction.RunCompaction | utils/sessions/MemoryCompactionSession.ts:98-129 | the store is unchanged with at most 4 items, or when an unforced run stays below a positive threshold; otherwise it becomes the compactor's output with falsy entries removed and the counter is zero; compaction happens exactly when those gates let it through |
| TokenCompaction.AddItems | utils/sessions/MemoryCompactionSession.ts:67-73 | the items are appended and counted, then an unforced compaction check either compacts the grown store or leaves it as grown; skills and threshold are untouched |
| TokenCompaction.ClearSession | utils/sessions/MemoryCompactionSession.ts:79-82 | the store is emptied and the counter reset, and nothing else changes |
| TokenCompaction.PopItem | utils/sessions/MemoryCompactionSession.ts:75-77 | an empty store gives nothing; otherwise the last item is returned and removed |
| TokenCompaction.AddSkillRead | utils/sessions/MemoryCompactionSession.ts:43-49 | a store that tracks skills records the skill itself; otherwise the skill is added once to the local list; items are untouched |
| TokenCompaction.GetSkillsRead | utils/sessions/MemoryCompactionSession.ts:51-61 | the result is duplicate-free and holds exactly the local skills and, unless the store's lookup throws, the store's skills |
| TokenCompaction.AddThenGetSkill | utils/sessions/MemoryCompactionSession.ts:43-61 | a skill just recorded is reported as read |
| TokenCompaction.ReferenceCompact | utils/sessions/MemoryCompactionSession.ts:94-96 | the documented compactor keeps the first item, adds one notice, and keeps the last three items |
| TokenCompaction.ForcedCompactionShape | test.e2e/compaction.e2e.ts:100-117 | a forced compaction of a longer history leaves five items: the original first item, a system notice that mentions "compacted", and the original last three items |
| TokenCompaction.SmallStoreStable | utils/sessions/MemoryCompactionSession.ts:114-117 | a store with at most four items survives any sequence of compaction runs unchanged |
| CountCompaction.New | utils/MemoryCompactionSession.ts:31-35 | the threshold is the given one or 20, and the counter starts at zero |
| CountCompaction.NoticeContent | utils/MemoryCompactionSession.ts:90-124 | without a model, after a failed call, or with an empty summary the notice is the fallback; otherwise it embeds the summary |
| CountCompaction.SingleAnswerSummary | utils/MemoryCompactionSession.ts:105-115 | one assistant answer with one text part is the summary verbatim |
| CountCompaction.NoAssistantNoSummary | utils/MemoryCompactionSession.ts:105-119 | output with no assistant message gives an empty summary and hence the fallback notice |
| CountCompaction.RunCompaction | utils/MemoryCompactionSession.ts:70-134 | at most one item changes nothing; otherwise the counter is reset; up to six items are kept; beyond that the history becomes the anchor, the notice and the last five items, seven in all |
| CountCompaction.AddItems | utils/MemoryCompactionSession.ts:45-54 | the items are appended and counted, and a compaction runs exactly when the counter reaches the threshold |
| CountCompaction.ClearSession | utils/MemoryCompactionSession.ts:60-63 | the store is emptied and the counter reset |
| CountCompaction.PopItem | utils/MemoryCompactionSession.ts:56-58 | an empty store gives nothing; otherwise the last item is returned and removed |
| CountCompaction.TriggeredAdditionIsBounded | utils/MemoryCompactionSession.ts:49-53 | an addition that reaches the threshold leaves at most seven items |
| CountCompaction.AnchorLeadsRewrite | utils/MemoryCompactionSession.ts:80-83 | a rewritten history starts with the original first item |
| CountCompaction.AnchorSurvivesAdditions | utils/MemoryCompactionSession.ts:45-54 | over any sequence of additions, with or without compactions, the first item stays first |
| DiskSession.SessionRows | utils/sessions/DiskSession.ts:56-59 | the query keeps exactly the rows of the requested session |
| DiskSession.NewRows | utils/sessions/DiskSession.ts:100-105 | one row per item, in order, with consecutive ids and the session's id |
| DiskSession.Insert | utils/sessions/DiskSession.ts:100-105 | inserting appends the new rows, advances the id counter by the item count, and keeps ids ascending |
| DiskSession.DeleteLastRow | utils/sessions/DiskSession.ts:118-129 | deleting keeps only existing rows and keeps ids ascending |
| DiskSession.DeleteSessionRows | utils/sessions/DiskSession.ts:144 | the rows that remain are exactly those of other sessions |
| DiskSession.InsertView | utils/sessions/DiskSession.ts:91-106 | inserting for a session appends the items to that session's view and leaves every other session's view alone |
| DiskSession.DeleteLastRowView | utils/sessions/DiskSession.ts:118-129 | deleting the highest-id row of a session drops the last row of that session's view only |
| DiskSession.DeleteSessionRowsView | utils/sessions/DiskSession.ts:143-144 | deleting a session's rows empties its view and leaves other views alone |
| DiskSession.Hydrate | utils/sessions/DiskSession.ts:55-78 | stored rows replace the initial items; with none stored, the initial items are persisted; either way memory and table agree |
| DiskSession.Open | utils/sessions/DiskSession.ts:19-79 | the corrected start-up, in which the instance keeps the id that loading and persisting use (`DiskSession.OpenAsWritten` models lines 45-53 as written, where the instance keeps an adopted empty id): a given id is used; otherwise the first row's id is adopted, the generated id (or `default-session` when that is empty) is used for an empty table, and `default-session` replaces an empty stored id; the result satisfies the store invariant with a non-empty id, holds the stored items or else the initial ones, and leaves other sessions alone |
| DiskSession.AddItems | utils/sessions/DiskSession.ts:91-106 | memory grows by the items and the table by one row per item for this session; the invariant holds and other sessions are untouched |
| DiskSession.PopItem | utils/sessions/DiskSession.ts:108-133 | the corrected pop, which deletes the row whatever the item (`DiskSession.PopItemAsWritten` models the `if (item)` test of line 113 as written, which skips the delete for a falsy item): an empty session changes nothing; otherwise the last item is returned and exactly this session's highest-id row is deleted, keeping the invariant |
| DiskSession.ClearSession | utils/sessions/DiskSession.ts:135-145 | memory is emptied and exactly this session's rows are deleted |
| DiskSession.ReopenRoundTrip | utils/sessions/DiskSession.ts:56-65 | reopening a consistent store by its id gives back the same items and table |
| DiskSession.EncodingIrrelevant | utils/sessions/DiskSession.ts:29-35 | writing with JSONB or as text gives every session the same items |
| DiskSession.Apply | utils/sessions/DiskSession.ts:91-145 | every operation keeps the store invariant and the session id |
| DiskSession.ApplyAll | utils/sessions/DiskSession.ts:91-145 | any sequence of operations keeps the store invariant and the session id |
| DiskSession.HistoryRoundTrip | utils/sessions/DiskSession.ts:56-65 | after any history of operations, reopening the table by id reproduces the in-memory items |
| DiskSession.OpenAsWritten | utils/sessions/DiskSession.ts:50-53 | start-up as written agrees with the corrected one whenever the resolved id is non-empty |
| DiskSession.OpenAsWrittenLosesSync | utils/sessions/DiskSession.ts:50-53 | a table whose first row has an empty session id makes start-up as written break the invariant, and the corrected start-up keeps it |
| DiskSession.PopItemAsWritten | utils/sessions/DiskSession.ts:113-130 | popping as written agrees with the corrected pop whenever the popped item is present |
| DiskSession.PopAsWrittenLosesSync | utils/sessions/DiskSession.ts:113-130 | popping a stored null as written leaves memory and table out of step, and the corrected pop keeps them in step |
| Cost.PricesFor | utils/cost.ts:25 | a listed model gets its own prices; a missing or empty name, or any other unlisted name, gets the default model's prices, except a name the table inherits from `Object.prototype` (`constructor`, `toString`, …), which finds no prices, and only such a name |
| Cost.ExtractCachedTokens | utils/cost.ts:7-17 | no detail list, or an empty one, gives zero cached tokens, and details with non-negative counts give a non-negative total |
| Cost.CalculateCost | utils/cost.ts:19-31 | the cost is NaN exactly for a name inherited from `Object.prototype`; otherwise it is the full-rate input, the cached input and the output, each charged at the model's price |
| Cost.SumCachedAppend | utils/cost.ts:7-17 | cached counts over concatenated detail lists add up |
| Cost.NoCachedKey | utils/cost.ts:7-17 | details without a cached-token key contribute nothing |
| Cost.UnknownModelCostsDefault | utils/cost.ts:25 | a missing model, or an unknown one that is not an inherited `Object.prototype` name, costs what the default model costs; an inherited name costs NaN |
| Cost.CostSplits | utils/cost.ts:19-31 | the cost of a turn is the input part plus the output part, and NaN in either part makes the whole NaN |
| Cost.CachingDiscount | utils/cost.ts:19-31 | for a model with prices, cached tokens are cheaper: the cost is the uncached cost minus the discount per cached token, so any cached token lowers it |
| Cost.MillionTokenPrice | utils/cost.ts:3-5 | a million input and a million output tokens on the default model cost 0.875 + 7.00, and half a million cached tokens are charged at the cached rate |
| Cost.SumCachedScales | utils/cost.ts:7-17 | scaling every detail's cached count scales the sum |
| Cost.CostScales | utils/cost.ts:19-31 | scaling all token counts by k scales the cost by k |
| Cost.RecordTurn | utils/cost.ts:39-49 | the returned cost is the turn's cost; each token total grows by exactly the turn's tokens; the cost total stays a number exactly while no turn used an inherited name, and then grows by the turn's cost |
| Cost.StatusTotalAnticipatesRecord | utils/cost.ts:51-72 | the total shown in the status line is the total after recording the turn |
| Cost.RecordTurns | utils/cost.ts:33-49 | recording turns from zero leaves totals equal to the sums over all turns, and returns each turn's own cost |
| Cost.NaNPoisonsTotal | utils/cost.ts:25-47 | the total cost of a sequence of turns is NaN exactly when some turn named an inherited `Object.prototype` model |
| PosixPath.NormSegs | utils/aiignore.ts:48 | normalised segments contain no empty or "." segment, and no ".." when the path may not climb |
| PosixPath.Assemble | utils/aiignore.ts:48 | the assembled path is non-empty, starts with "/" exactly when absolute, and keeps a trailing "/" |
| PosixPath.Normalize | utils/aiignore.ts:48 | a normalised path is never empty, is absolute exactly when its input is, and keeps a trailing "/" |
| PosixPath.NormalizePlain | utils/aiignore.ts:48-49 | a path of plain segments is already normal, and splitting it gives its segments back |
| PosixPath.ResolvePlain | utils/aiignore.ts:40 | a relative path of plain segments resolves to the working directory followed by those segments |
| PosixPath.Resolve | utils/aiignore.ts:40 | the resolved path has no empty, "." or ".." segment |
| PosixPath.CommonPrefix | utils/aiignore.ts:41 | the shared leading segments of two paths, stopping at the first difference |
| PosixPath.RelativeInside | utils/aiignore.ts:41 | a path below the working directory is named relative to it by its remaining segments |
| PosixPath.RelativeOutside | utils/aiignore.ts:41 | a path not below the working directory gets a relative name that climbs with ".." |
| PosixPath.Relative | utils/aiignore.ts:41 | the path from a directory to itself is the empty string |
| Aiignore.SplitLines | utils/aiignore.ts:15 | splitting at line ends gives one line per newline-separated part |
| Aiignore.StripSeparator | utils/aiignore.ts:18 | a pattern ending in `/` or `\` loses exactly that last character; any other pattern is unchanged |
| Aiignore.LinePattern | utils/aiignore.ts:16-18 | a blank or comment line gives no pattern; any other line gives exactly one, its trimmed text with a trailing separator removed |
| Aiignore.PatternsOf | utils/aiignore.ts:14-18 | there are never more patterns than lines |
| Aiignore.PatternsFromLines | utils/aiignore.ts:14-18 | a string is a pattern of the file exactly when it is the trimmed, separator-stripped text of some line that is neither blank nor a comment |
| Aiignore.ParsePatterns | utils/aiignore.ts:9-26 | a missing or unreadable file gives no patterns |
| Aiignore.PatternsOfAppend | utils/aiignore.ts:14-18 | the patterns of concatenated lines are the patterns of each part, in order |
| Aiignore.SkippedLine | utils/aiignore.ts:17 | a blank or comment line contributes nothing wherever it stands |
| Aiignore.PaddedLine | utils/aiignore.ts:16 | white space around a line does not change its pattern |
| Aiignore.SeparatorLine | utils/aiignore.ts:18 | a clean pattern followed by one `/` or `\` gives that pattern |
| Aiignore.PaddedSeparatorLine | utils/aiignore.test.ts:65-78 | a line such as `  dist/  ` or `folder\`, white space around a pattern with a trailing separator, gives the bare pattern |
| Aiignore.ParseLines | utils/aiignore.ts:14-18 | parsing a file of lines gives the lines' patterns in order |
| Aiignore.ParseRoundTrip | utils/aiignore.ts:14-18 | writing clean patterns one per line and parsing them gives them back |
| Aiignore.IsIgnored | utils/aiignore.ts:33-70 | the corrected check, which treats a path as outside only when its first segment is `..` rather than when its text starts with `..` (line 44; `IsIgnoredAsWritten` models that line as written): a path with an `.aiignore` segment is always ignored, and with no patterns nothing else is |
| Aiignore.PatternMatches | utils/aiignore.ts:56-69 | a floating pattern can match only a path with at least one segment |
| Aiignore.AnchoredIgnoresSegments | utils/aiignore.ts:58-61 | an anchored pattern decides from the normalised path alone, whatever its segments |
| Aiignore.MissingFileHidesOnlyItself | utils/aiignore.ts:19-25 | without a readable ignore file only the ignore file itself is hidden |
| Aiignore.OutsideNeverIgnored | utils/aiignore.ts:43-46 | a path outside the working directory is ignored only for an `.aiignore` segment |
| Aiignore.JoinPrefixMatch | utils/aiignore.ts:60 | the text test "equal, or starts with pattern + /" holds exactly when the pattern's segments lead the path's segments |
| Aiignore.RenderedMatches | utils/aiignore.ts:56-69 | an anchored pattern matches exactly the paths it leads, and a floating one exactly the paths with a trailing run it leads |
| Aiignore.PlainStaysInside | utils/aiignore.ts:43-46 | a path of plain segments is never taken to leave the working directory |
| Aiignore.IgnoredBySegments | utils/aiignore.ts:33-70 | for a plain path inside the working directory, it is ignored exactly when it names the ignore file or some pattern covers its segments |
| Aiignore.MatchingExamples | utils/aiignore.test.ts:45-87 | `/dist` covers only a leading `dist`, `node_modules` matches at any depth, `temp` does not match `templates`, and `src/generated` matches only as whole segments |
| Aiignore.IsIgnoredAsWritten | utils/aiignore.ts:44 | every path the check as written ignores is also ignored by the corrected check |
| Aiignore.DottedNamesEscapeAsWritten | utils/aiignore.ts:44 | as written, any path whose first segment starts with ".." is treated as outside and never ignored |
| Aiignore.DotDotNameEscapes | utils/aiignore.ts:44 | a file such as `..env` listed as a pattern is ignored by the corrected check but not by the check as written |
| MentionsIgnored.QuotedLen | utils/mentionsIgnoredPath.ts:13 | a found span ends at a closing quote, and every earlier quote in it follows a backslash |
| MentionsIgnored.QuotedSpanEnds | utils/mentionsIgnoredPath.ts:13 | a found span ends at the first quote preceded by an even run of backslashes, with no earlier dangling backslash; none is found exactly when every such quote comes after a dangling backslash |
| MentionsIgnored.QuotedSpanExists | utils/mentionsIgnoredPath.ts:13 | a span closes exactly when some unescaped quote has no dangling backslash before it |
| MentionsIgnored.EscapedBackslashCloses | utils/mentionsIgnoredPath.ts:13 | in `\\"x"` the escaped backslash leaves the quote that follows it closing the span |
| MentionsIgnored.RunLen | utils/mentionsIgnoredPath.ts:13 | an unquoted word is the maximal run of characters that are neither white space nor shell operators |
| MentionsIgnored.Next | utils/mentionsIgnoredPath.ts:13-17 | the next match is a closed quoted span, whose inner text is the candidate, or a maximal word; any other character is skipped |
| MentionsIgnored.Candidates | utils/mentionsIgnoredPath.ts:13-17 | a command yields no more candidates than characters, and no candidate longer than the command |
| MentionsIgnored.MentionsStep | utils/mentionsIgnoredPath.ts:16-22 | a command mentions an ignored path exactly when its first match does or the rest of the command does |
| MentionsIgnored.MentionsIgnoredPath | utils/mentionsIgnoredPath.ts:8-25 | the scan answers true exactly when some non-empty candidate is ignored |
| MentionsIgnored.QuotedSpan | utils/mentionsIgnoredPath.ts:13 | a quoted argument yields its inner text, without quotes, as one candidate |
| MentionsIgnored.WordThenRest | utils/mentionsIgnoredPath.ts:13 | an unquoted word ends where a non-word character or the text ends |
| MentionsIgnored.SkipSeparator | utils/mentionsIgnoredPath.ts:13 | white space and shell operators yield no candidate |
| MentionsIgnored.PlainWordsRoundTrip | utils/mentionsIgnoredPath.ts:13-17 | words joined by separators are recovered exactly as the candidates |
| MentionsIgnored.IgnoredWordFound | utils/mentionsIgnoredPath.ts:16-22 | an ignored word anywhere in a command is found |
| MentionsIgnored.NoIgnoredWord | utils/mentionsIgnoredPath.ts:16-24 | a command none of whose words is ignored is not flagged |
| MentionsIgnored.QuotedArgumentFound | utils/mentionsIgnoredPath.ts:13-20 | an ignored quoted argument after a command is found |
| MentionsIgnored.NamingTheIgnoreFile | utils/mentionsIgnoredPath.ts:19 | a command that names `.aiignore` as a word mentions an ignored path, under the corrected `isIgnored` check |
| ParseArgs.StripQuotes | lifecycle/parseArgs.ts:7-12 | the result is the input, or the input without both ends when those are the same quote character |
| ParseArgs.StripQuotesPair | lifecycle/parseArgs.ts:7-10 | a quoted word loses exactly its surrounding quotes |
| ParseArgs.StripQuotesOther | lifecycle/parseArgs.ts:11 | a string not enclosed in matching quotes is returned unchanged |
| ParseArgs.SpellingsDistinct | lifecycle/parseArgs.ts:26-30 | the flag spellings are non-empty, pairwise distinct and contain no "=" |
| ParseArgs.FindFlag | lifecycle/parseArgs.ts:33-47 | the first table entry the argument names, as the bare spelling or spelling=value; none when no entry matches |
| ParseArgs.FindsSpelling | lifecycle/parseArgs.ts:33-45 | each spelling, bare or with "=value", selects its own table entry |
| ParseArgs.NotAFlag | lifecycle/parseArgs.ts:33-50 | an argument that is no spelling and has no "=" is not a value flag |
| ParseArgs.ValueStep | lifecycle/parseArgs.ts:33-47 | a value flag consumes one or two arguments, leaves the boolean switches alone and never clears the session path |
| ParseArgs.Step | lifecycle/parseArgs.ts:33-68 | each argument step consumes one or two arguments; switches once on stay on, the flex tier turns on only for `--flex-tier`, and a session path is never cleared |
| ParseArgs.ApplyArgs | lifecycle/parseArgs.ts:23-69 | over the whole argument list, switches once set stay set, a session path stays set, and the flex tier is on only when it was or `--flex-tier` is among the arguments |
| ParseArgs.ApplyBoolean | lifecycle/parseArgs.ts:53-68 | `--flex-tier` sets the flex tier, the two spinner spellings disable the spinner, the six aliases disable interruptions, and the value keys are untouched |
| ParseArgs.ValueFlagTakesNext | lifecycle/parseArgs.ts:35-40 | a value flag followed by a non-empty argument sets its key to that argument without quotes and consumes it |
| ParseArgs.ValueFlagAtEnd | lifecycle/parseArgs.ts:35-40 | a value flag with nothing after it changes nothing |
| ParseArgs.ValueFlagEquals | lifecycle/parseArgs.ts:41-44 | `flag=value` sets the key from the text after "=" without quotes |
| ParseArgs.BooleanFlagArgument | lifecycle/parseArgs.ts:50-68 | a boolean flag is applied and parsing continues with the next argument |
| ParseArgs.FillFromEnv | lifecycle/parseArgs.ts:72-80 | a value set on the command line wins; an empty one is taken from a non-empty variable |
| ParseArgs.ApplyEnv | lifecycle/parseArgs.ts:72-100 | model, compaction model and session are filled from the environment only when still empty; the flex tier and the spinner switch are on when the command line or a variable turns them on; interruptions stay enabled only if neither the command line nor any variable disables them |
| ParseArgs.DefaultModel | lifecycle/parseArgs.ts:103-115 | the default model follows the provider keys in the order Anthropic, Google, OpenAI, Ollama, else `gpt-5.2` |
| ParseArgs.DefaultCompactionModel | lifecycle/parseArgs.ts:118-129 | the default compaction model follows the model's provider prefix, else `gpt-4o-mini` |
| ParseArgs.TracingEnv | lifecycle/parseArgs.ts:131-133 | tracing is switched off with "1" only for non-OpenAI models and only when not already set; no other variable changes |
| ParseArgs.WithDefaults | lifecycle/parseArgs.ts:103-129 | the defaults fill an empty model and compaction model and never override a given one |
| ParseArgs.ParseArgs | lifecycle/parseArgs.ts:14-134 | a help request shows help, else a version request shows the version, and otherwise the configuration has a model and a compaction model |
| ParseArgs.CommandLineModelWins | lifecycle/parseArgs.ts:72-74 | a model given on the command line is the configured model |
| ParseArgs.EnvModelBeatsDefaults | lifecycle/parseArgs.ts:72-74 | without a command-line model, the model variable beats the provider defaults |
| ParseArgs.DefaultModelApplies | lifecycle/parseArgs.ts:103-115 | with neither a command-line model nor the model variable, the provider default is used |
| Flags.IsTrue | utils/strings/isTrue.ts:1-7 | a true answer needs a value whose trimmed text is at most four characters long |
| Flags.IsFalse | utils/strings/isFalse.ts:1-7 | a false answer needs a value whose trimmed text is at most five characters long |
| Flags.NeverBoth | utils/strings/isFalse.ts:5-6 | no value is both true and false, and a missing value is neither |
| Flags.PaddingIgnored | utils/strings/isTrue.ts:5 | white space around a value does not change either answer |
| Flags.CaseIgnored | utils/strings/isTrue.ts:5 | values equal up to letter case get the same answers |
| Flags.AnyCasing | utils/strings/isTrue.ts:5-6 | any casing of `true`, `1`, `yes`, `on` is true, and any casing of `false`, `0`, `no`, `off` is false |
| Cli.AnyIn | utils/cli.ts:9 | true exactly when some argument, lower-cased, is one of the variants |
| Cli.IsHelpRequest | utils/cli.ts:7-10 | an empty argument list is no help request |
| Cli.IsVersionRequest | utils/shell/cli.ts:15-18 | an empty argument list is no version request |
| Cli.RequestAnywhere | utils/shell/cli.ts:9 | a request anywhere in the list counts, so adding arguments never turns a request off |
| Cli.CaseInsensitive | utils/cli.ts:9 | argument lists equal up to letter case give the same answer |
| Cli.UpperCaseRequests | utils/cli.test.ts:23-25 | `HELP` and `VERSION` are requests |
| GetModel.IsOpenAIModel | lifecycle/getModel.ts:7-17 | no name, an empty name and `gpt-5.2` are OpenAI; any other name is OpenAI exactly when it lacks the `claude-`, `gemini-` and `ollama-` prefixes |
| GetModel.GetModel | lifecycle/getModel.ts:19-40 | the default name is returned exactly for a default request; Anthropic exactly for `claude-` names; Ollama gets the name without its prefix and a custom endpoint exactly when one is configured |
| GetModel.OpenAIExactlyWhenOpenAIChosen | lifecycle/getModel.ts:7-40 | a name counts as OpenAI exactly when the provider choice is the default or OpenAI |
| GetModel.ProviderByPrefix | lifecycle/getModel.ts:24-37 | `claude-`, `gemini-` and `ollama-` names go to their providers, and Ollama gets the name without the prefix |
| Version.DigitRun | utils/isVersionNewer.ts:2 | the leading run of digits is maximal |
| Version.NatToStringValue | utils/isVersionNewer.ts:2 | the decimal text of a number reads back as that number |
| Version.ParseIntRoundTrip | utils/isVersionNewer.ts:2 | `parseInt` of a number's decimal text followed by a non-digit gives the number |
| Version.NotANumber | utils/isVersionNewer.ts:2 | text starting with a character that is not white space, a sign or a digit is not a number |
| Version.ParseInt | utils/isVersionNewer.ts:2-3 | `parseInt` gives a number exactly when a digit follows leading white space and at most one sign |
| Version.FirstDigit | utils/isVersionNewer.ts:2-3 | the digits read start at that first digit, and the result is negated exactly when a `-` comes right before it |
| Version.ParseIntValue | utils/isVersionNewer.ts:2-3 | the number read is the value of the digit run at the first digit, negated after `-` |
| Version.DottedComponents | utils/isVersionNewer.ts:2-3 | a dotted list of numbers splits into those numbers |
| Version.NewerFromIsLexicographic | utils/isVersionNewer.ts:4-16 | the loop answers true exactly when some component among the first three is larger and every earlier one is readable and equal |
| Version.IsVersionNewer | utils/isVersionNewer.ts:1-17 | "newer" holds exactly when, within the first three components, the first differing readable component of the latest version is larger |
| Version.Irreflexive | utils/isVersionNewer.ts:17 | no version is newer than itself |
| Version.Asymmetric | utils/isVersionNewer.ts:10-15 | if a is newer than b, then b is not newer than a |
| Version.TriplesCompareLexicographically | utils/isVersionNewer.ts:4-16 | three-part numeric versions compare in lexicographic order |
| Version.MissingComponentStops | utils/isVersionNewer.ts:7-9 | a two-part version and a three-part one that share the first two parts are newer in neither direction |
| Version.UnreadableComponentStops | utils/isVersionNewer.ts:7-9 | a non-numeric middle component stops the comparison with a false answer |
| GetEnv.GetEnv | utils/getEnv.ts:12-32 | the new key wins silently, even when empty; otherwise the old key's value comes with a notice the first time only; with neither key, nothing |
| GetEnv.ValueIgnoresHistory | utils/getEnv.ts:12-32 | the value read does not depend on earlier notices |
| GetEnv.WarnedGrows | utils/getEnv.ts:20-27 | a call only adds its old key to the warned set, and a notice means the key was new to it |
| GetEnv.RepeatedRead | utils/getEnv.ts:20-27 | reading the same pair twice gives the same value, and the second read prints no notice |
| GetEnv.NoticeAtMostOnce | utils/getEnv.ts:20-27 | over any sequence of calls, no key gets two notices, none already warned about gets one, and every key warned about is remembered |
| HarperApi.NonEmpty | tools/harper/hitHarperAPITool.ts:26 | the filtered segments are non-empty and no more numerous than the parts |
| HarperApi.NeedsApproval | tools/harper/hitHarperAPITool.ts:20-32 | only a DELETE can need approval; a call id the user already approved never asks again; an unapproved DELETE without a path asks |
| HarperApi.DeleteAsksWhenShallow | tools/harper/hitHarperAPITool.ts:25-29 | without an approval, a DELETE asks exactly when the path has at most one non-empty segment |
| HarperApi.LeadingSlash | tools/harper/hitHarperAPITool.ts:26 | a leading "/" adds no segment |
| HarperApi.TrailingSlash | tools/harper/hitHarperAPITool.ts:26 | a trailing "/" adds no segment |
| HarperApi.RootAsks | tools/harper/hitHarperAPITool.ts:26-28 | deleting "", "/" or a missing path asks |
| HarperApi.TableDeleteAsks | tools/harper/hitHarperAPITool.ts:25-29 | deleting `/Table` or `/Table/` asks |
| HarperApi.RecordDeleteGoesAhead | tools/harper/hitHarperAPITool.ts:25-31 | deleting `/Table/id`, with or without a trailing "/", does not ask |
| HarperApi.RequestPath | tools/harper/hitHarperAPITool.ts:40 | the requested path always starts with "/", and is the given path exactly when that already did |
| HarperApi.RequestPathIdempotent | tools/harper/hitHarperAPITool.ts:40 | normalising the path twice changes nothing more |
| HarperApi.RequestPathKeepsSegments | tools/harper/hitHarperAPITool.ts:26-40 | the requested path has the same segments the approval rule looked at |

## Left out

- The SQLite driver, its promise wrappers and the JSON text are not modelled. The table is a sequence of rows; the payload is the item itself, tagged with the encoding that wrote it.
- The adoption query `SELECT DISTINCT sessionId … LIMIT 1` has no `ORDER BY`. The model adopts the session id of the first row in id order.
- `compactConversation` (utils/sessions/compactConversation.ts) is not part of this model. It is a function parameter, and only the documented shape is assumed, for the reference compactor.
- `getCompactionTriggerTokens` (modelContextLimits) is not part of this model. Its result is a parameter of `TokenCompaction.New`.
- `excludeFalsy` (utils/arrays/excludeFalsy.ts) is not part of this model. It is modelled as removing the `Absent` entries.
- The summarising model call in the count-triggered session is left out. It becomes a `Reply` parameter: the call either threw or returned output items. The logged error is dropped.
- The underlying in-memory session's own getters and its `getSessionId` are left out. So is `getItems` with a limit.
- Session ids are strings; the in-memory session's generated id is a parameter.
- Prices are exact `real`s. The program uses floating point, so the rounding of IEEE doubles is not modelled.
- The number formatting and colouring in `getStatusString` are left out. `Cost.StatusTotal` keeps only the total that the status line shows.
- `logFinalStats` only prints, so it is left out. Its totals are the tracker's fields.
- `NaN` arises in the model only from an inherited `Object.prototype` model name. Token counts are integers here, so a missing or non-numeric count is not modelled.
- The cost tests pass a single detail object where the code iterates an array. The model follows the code: details are a list.
- The argument-parsing tests use `HARPER_AGENT_*` variables, `--max-turns`, `--max-cost` and session-path resolution. The code reads `HAIRPER_*` variables and has none of the others, and the model follows the code.
- Help and version requests end the process after printing. The model returns `ShowHelp` or `ShowVersion` instead; the printed text is left out.
- Path handling is POSIX only: `/` is the separator, and the Windows branch of `path.sep` is left out. The working directory is a list of plain segments.
- Reading `.aiignore` from disk is the `Option<string>` file content: `None` stands for a missing file or a read error. The error message is left out.
- `Strings.ToLower` lowercases ASCII letters only. The strings it is compared against (flag words, help and version variants) are ASCII. No non-ASCII character lowercases to one of those letters except the Kelvin sign, and that lowercases to `k`, which none of those words contains.
- `parseInt` is unbounded here. Very long digit runs do not lose precision as JavaScript numbers do.
- `needsApproval` reads a missing path as the empty path. The tool's default path `/openapi` and its default method `GET`, the port lookup and the `fetch` call are left out.
- The response text and the Harper process status are left out.
- `Flags.IsTrue` and `Flags.IsFalse` state only a length bound in their own contracts. The full meaning (the accepted words, under any casing and padding) is stated by `AnyCasing`, `CaseIgnored` and `PaddingIgnored`.
- `Cli.IsHelpRequest` and `Cli.IsVersionRequest` state only the empty-list case in their own contracts. The full meaning is the contract of `Cli.AnyIn`, which both apply.
- `TokenCompaction.AddSkillRead` models the underlying session's skill tracking as one capability, `SkillSupport`. The program tests `addSkillRead` and `getSkillsRead` separately (utils/sessions/MemoryCompactionSession.ts:45 and :54). The model assumes that a session with the capability has both, and that its `addSkillRead` adds the skill once to the list its `getSkillsRead` returns. `TokenCompaction.AddThenGetSkill` relies on that assumption in the `Supported` case. The sessions that `createSession` wraps (utils/sessions/createSession.ts:9) are the in-memory and the durable session, and neither has these methods, so the program itself only reaches `Unsupported`.
- `PosixPath.Normalize`, `PosixPath.Resolve` and `PosixPath.Relative` state only the shape of their results in their own contracts. Their segment-level meaning is stated by `NormSegs`, `NormalizePlain`, `ResolvePlain`, `RelativeInside` and `RelativeOutside`.
- `Aiignore.PatternMatches` states only that a floating match needs a segment. Which paths each kind of pattern matches is stated by `RenderedMatches` and `AnchoredIgnoresSegments`.
- `MentionsIgnored.Candidates` states only length bounds. What the candidates are is stated by `Next`, `MentionsStep` and `PlainWordsRoundTrip`.
- `ParseArgs.ApplyArgs` states only what the loop keeps. The effect of each kind of argument is stated by `ApplyBoolean`, `ValueFlagTakesNext`, `ValueFlagAtEnd`, `ValueFlagEquals` and `BooleanFlagArgument`.
- Tool wrappers (shell, files, patching, the code interpreter, the browser, starting and stopping Harper) are left out. So are the agent loop, the spinner, update checks and the end-to-end chat driver. All of them are processes, file system or network I/O.

## Findings

| source | as written | input that shows it | evidently intended | confidence | as-written member | corrected member |
|---|---|---|---|---|---|---|
| utils/sessions/DiskSession.ts:50-53 | the `default-session` fallback is stored only in the local `sessionId`, so loading and persisting use it, but the instance keeps the empty id for every later operation | no `sessionId` option and a table whose first row has an empty session id | the fallback id becomes the session's own id, so later rows land in the same partition | not executed; medium | DiskSession.OpenAsWrittenLosesSync | DiskSession.Open |
| utils/sessions/DiskSession.ts:113-130 | the row is deleted only when the popped item is truthy | a session whose last stored item is `null` | the last row of the session is deleted whenever an item was popped, keeping memory and table in step | not executed; medium | DiskSession.PopAsWrittenLosesSync | DiskSession.PopItem |
| utils/aiignore.ts:44 | a relative path that merely starts with the characters `..` is treated as outside the working directory | a file `..env` in the working directory, with `..env` listed in `.aiignore` | only a first segment that is exactly `..` means the path leaves the working directory | not executed; high | Aiignore.DotDotNameEscapes | Aiignore.IsIgnored |

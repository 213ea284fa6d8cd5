# DebateLLM prompt and transcript core, in Dafny

A model of `debatellm/utils/debate.py` from DebateLLM, a framework in which
several language-model agents debate a question over several rounds. The file
turns a debate transcript into what the next agent sees:

- the four transcript views of `construct_message_from_history`:
  `assistant_list`, `one_prompt`, `tsinghua_judge` and `tsinghua_mad`;
- the round prompts `construct_message` and `construct_summary_message`;
- the Exchange-of-Thought prompt `construct_eot_message`;
- the helpers these use: `partial_format`, `remove_question`,
  `remove_spaces_in_name` and `most_frequent`.

Everything is pure. Python dicts become datatypes or `map<string, string>`.
Python exceptions become a `Result` holding `KeyError(key)`, `IndexError`,
`InvalidMode` (the `ValueError` of an unknown mode) or `FormatValueError`.

Modules:

- `Wrappers`: `Option`, `Result` and the error kinds.
- `Text`: the string operations Python supplies:
  - `str.replace`, for all occurrences or for the first one;
  - `str.strip("\n")`;
  - the count of overlapping matches that a lookahead `re.findall` returns.
- `Formatting`: `partial_format`, and `str.format` with a single positional
  argument.
- `Messages`: transcript entries, chat messages and `remove_spaces_in_name`.
- `Prompts`: `remove_question`, `construct_summary_message` and
  `construct_message`.
- `ExchangeOfThought`: `construct_eot_message`.
- `Sequences`: map and interleaving over sequences, which the views are built
  from.
- `History`: `construct_message_from_history`.
- `Vote`: `most_frequent`.

Each looping view is modelled twice:

- a fold that follows the Python loop, with the loop's accumulators as
  parameters (`JudgeFold`, `MadFold`);
- a reference definition that cuts the transcript into segments and
  interleaves user and assistant messages (`JudgeReference`, `MadReference`).

A lemma proves that the fold and the reference definition agree for every
accumulator. The shape theorems about the views rest on these lemmas.

## Model

| member | source | states |
|---|---|---|
| `Text.IndexOf` | debatellm/utils/debate.py:277 | the position `replace(..., 1)` acts on: an occurrence with none before it, and none exactly when the pattern does not occur |
| `Text.ReplaceFirst` | debatellm/utils/debate.py:277 | with no occurrence the string is unchanged; otherwise the leftmost occurrence, with none before it, is cut out and the replacement put in its place |
| `Text.CountOverlapping` | debatellm/utils/debate.py:273-274 | the lookahead `findall` finds nothing exactly when the question does not occur; an empty question matches at all `len + 1` positions |
| `Text.CountOverlappingPositions` | debatellm/utils/debate.py:273-274 | the number of matches is the number of positions `i <= len` at which the question occurs, overlapping ones included |
| `Text.CountJoin` | debatellm/utils/debate.py:273-274 | text made of parts joined by the question has at least one match per copy of the question |
| `Text.Strip` | debatellm/utils/debate.py:178 | `strip("\n")` gives a text with no newline at either end |
| `Text.StripKeepsInfix` | debatellm/utils/debate.py:178 | only newlines are cut: the input is a run of newlines, the result, and another run of newlines |
| `Text.StripNoop` | debatellm/utils/debate.py:240 | a text with no outer newline is left as it is |
| `Text.StripIdempotent` | debatellm/utils/debate.py:264 | stripping twice is stripping once |
| `Text.ReplaceAll` | debatellm/utils/debate.py:21 | `replace` by a text of the pattern's length keeps the length of the string (as for `" "` by `"_"` at line 28) |
| `Text.ReplaceAllAbsent` | debatellm/utils/debate.py:21 | `replace` of an absent pattern changes nothing |
| `Text.ReplaceAllSkip` | debatellm/utils/debate.py:21 | a prefix that cannot start the pattern passes through `replace` untouched |
| `Text.ReplaceAllOnce` | debatellm/utils/debate.py:21 | a single occurrence between text that cannot start the pattern is the only thing `replace` changes |
| `Text.ReplaceAllJoin` | debatellm/utils/debate.py:21 | in text made of parts joined by the pattern, with no part holding the pattern's first character, every copy of the pattern is replaced and nothing else |
| `Text.ReplaceAllSkipStarts` | debatellm/utils/debate.py:21 | the characters before the first place an occurrence can start are copied through by `replace` unchanged |
| `Text.NoStraddle` | debatellm/utils/debate.py:21 | when the pattern's first character occurs nowhere else in it, no occurrence starts inside pattern-free text that the pattern follows |
| `Text.ReplaceAllJoinUnique` | debatellm/utils/debate.py:21 | for such a pattern, in parts joined by it where no part contains it, every separator is replaced and nothing else, even when the parts hold its first character |
| `Text.ReplaceFirstAfter` | debatellm/utils/debate.py:277 | after a prefix without the pattern's first character, `replace(..., 1)` replaces the occurrence that follows the prefix |
| `Text.ReplaceCharPointwise` | debatellm/utils/debate.py:28 | replacing one character by another keeps the length and changes exactly the positions that held it |
| `Formatting.PartialFormat` | debatellm/utils/debate.py:18-22 | a template with no `{` comes back unchanged, whatever the keyword arguments |
| `Formatting.PartialFormatNoArguments` | debatellm/utils/debate.py:18-22 | with no keyword arguments the template comes back unchanged, and applying it again changes nothing |
| `Formatting.PartialFormatAbsentKeys` | debatellm/utils/debate.py:18-22 | keys whose `{key}` placeholder is absent leave the template unchanged |
| `Formatting.PartialFormatOneKey` | debatellm/utils/debate.py:18-22 | a single `{key}` between brace-free text is replaced by the value |
| `Formatting.PartialFormatJoin` | debatellm/utils/debate.py:18-22 | every `{key}` is replaced, however often it occurs: parts without `{` joined by the placeholder become the parts joined by the value |
| `Formatting.PartialFormatRepeatedKey` | debatellm/utils/debate.py:21 | "{a}-{a}" with a = x is "x-x" |
| `Formatting.PartialFormatAppend` | debatellm/utils/debate.py:20-21 | keyword arguments apply in order: formatting with two argument lists in a row is formatting with the first and then the second |
| `Formatting.PartialFormatEveryOccurrence` | debatellm/utils/debate.py:18-22 | for a brace-free key, parts that do not contain `{key}` (but may hold other placeholders) joined by `{key}` become the parts joined by the value |
| `Formatting.PlaceholderElsewhere` | debatellm/utils/debate.py:21 | the placeholder of a different brace-free key, between text without `{`, never contains `{key}` |
| `Formatting.PartialFormatLeavesOthers` | debatellm/utils/debate.py:18-22 | in a template with placeholders for two different keys, formatting with only the first key fills it and leaves the other placeholder as it is |
| `Formatting.PartialFormatTwoKeys` | debatellm/utils/debate.py:18-22 | a template with one placeholder for each of two different keys has both filled, provided the first value holds no `{` |
| `Formatting.PartialFormatBothKeys` | debatellm/utils/debate.py:18-22 | "{a} {b}" with a = x and b = y is "x y" |
| `Formatting.PartialFormatUnmappedKey` | debatellm/utils/debate.py:18-22 | "{a}{c}" with only a = x is "x{c}" |
| `Formatting.PartialFormatValueHoldsLaterKey` | debatellm/utils/debate.py:20-21 | when the first key's value is the second key's placeholder, the second key rewrites it too, so both places hold the second value |
| `Formatting.PartialFormatRewritesValue` | debatellm/utils/debate.py:20-21 | "{a} {b}" with a = "{b}" and then b = y is "y y" |
| `Formatting.Prepend` | debatellm/utils/debate.py:57 | literal text in front of a format result is kept, and so is a failure |
| `Formatting.FormatFrom` | debatellm/utils/debate.py:57 | scanning a template fails only with IndexError, ValueError or an unsupported field; once `{}` is used, the rest formats to no more than its own length |
| `Formatting.Format` | debatellm/utils/debate.py:57 | `format` with one argument fails only in those three ways, and its result is at most the template plus one copy of the argument |
| `Formatting.FormatFromLiteral` | debatellm/utils/debate.py:57 | `format` copies brace-free text through and formats the rest |
| `Formatting.FormatNoField` | debatellm/utils/debate.py:57 | a template without braces formats to itself |
| `Formatting.FormatOneField` | debatellm/utils/debate.py:57 | a template with one `{}` between brace-free text formats to that text with the argument in the slot |
| `Formatting.FormatTwoFieldsFails` | debatellm/utils/debate.py:57 | a second `{}` with only one argument is an IndexError |
| `Messages.Underscored` | debatellm/utils/debate.py:28 | a name keeps its length, and every space and only the spaces become underscores |
| `Messages.RemoveSpacesInName` | debatellm/utils/debate.py:25-29 | the message count, roles and contents are kept; messages without a name are untouched; names keep their length and contain no space afterwards |
| `Messages.RemoveSpacesKeepsOtherCharacters` | debatellm/utils/debate.py:28 | every character of a name other than a space is kept in place |
| `Messages.RemoveSpacesIdempotent` | debatellm/utils/debate.py:25-29 | normalising names twice is normalising once |
| `Prompts.Lookup` | debatellm/utils/debate.py:40 | a template lookup succeeds exactly when the key is present, and otherwise it is a KeyError for that key |
| `Prompts.RemoveTimes` | debatellm/utils/debate.py:276-277 | repeating `replace(question, "", 1)` never lengthens the text, changes nothing when the question is empty or absent, and shortens it when the question occurs |
| `Prompts.RemoveQuestion` | debatellm/utils/debate.py:272-279 | the text never grows; it is unchanged when the question is empty or absent, and strictly shorter when the question occurs |
| `Prompts.RemoveTimesJoin` | debatellm/utils/debate.py:276-277 | with at least as many deletions as copies of the question between parts that lack its first character, all copies go and the parts are put together |
| `Prompts.RemoveQuestionJoin` | debatellm/utils/debate.py:272-279 | text made of such parts joined by the question becomes the parts put together: every copy of the question is removed, and nothing else |
| `Prompts.RemoveQuestionOnce` | debatellm/utils/debate.py:272-279 | one copy of the question between text that lacks its first character is cut out, so "xQy" without "Q" is "xy" |
| `Prompts.RemoveQuestionWhole` | debatellm/utils/debate.py:272-279 | a text that is exactly the question becomes empty |
| `Prompts.RemoveQuestionMayLeaveQuestion` | debatellm/utils/debate.py:276-277 | deleting can create a new occurrence, so "aabb" without "ab" is "ab", which still contains the question |
| `Prompts.RemoveQuestionOverlapping` | debatellm/utils/debate.py:273-277 | both overlapping matches of "aa" in "aaa" are counted; the first deletion destroys the second match, so the second `replace` finds nothing and "aaa" becomes "a" |
| `Prompts.ConstructSummaryMessage` | debatellm/utils/debate.py:32-41 | an empty summary gives the self-check sentence; otherwise the result succeeds exactly when both templates exist and is the summary between them; a missing prefix is reported before a missing suffix |
| `Prompts.LatestAnswer` | debatellm/utils/debate.py:56 | `agent_response[-1]` is the last answer, and an empty answer list is an IndexError |
| `Prompts.Fragment` | debatellm/utils/debate.py:55-57 | one peer's fragment: IndexError without an answer, then KeyError without the `agent_response` template, otherwise that template formatted with the latest answer, question removed |
| `Prompts.RenderPeers` | debatellm/utils/debate.py:54-57 | rendering succeeds only if every peer has an answer and the `agent_response` template exists; a first peer with no answer gives IndexError, and a first peer with an answer but no template gives KeyError |
| `Prompts.RenderPeersSucceeds` | debatellm/utils/debate.py:54-57 | the loop succeeds exactly when every peer's fragment does |
| `Prompts.RenderPeersFirstFailure` | debatellm/utils/debate.py:54-57 | the first peer whose fragment fails decides the error, whatever follows |
| `Prompts.RenderPeersUnanswered` | debatellm/utils/debate.py:55-56 | a peer without answers after peers that all format is an IndexError |
| `Prompts.RenderPeersSecondUnanswered` | debatellm/utils/debate.py:55-56 | with template `{}`, peers `[[x], []]` give an IndexError |
| `Prompts.ConstructMessage` | debatellm/utils/debate.py:44-66 | no peers gives the self-check sentence; on success the prefix template starts the result and the closing template chosen by the summary mode ends it; any peer without an answer makes it fail |
| `Prompts.CleanedAnswersAt` | debatellm/utils/debate.py:55-56 | one entry per peer: its last answer with the question removed |
| `Prompts.WrappedAppend` | debatellm/utils/debate.py:54-57 | rendering a concatenation of answer lists is concatenating their renderings |
| `Prompts.WrappedSplit` | debatellm/utils/debate.py:54-57 | the rendering splits around any single answer |
| `Prompts.RenderPeersOneSlot` | debatellm/utils/debate.py:54-57 | with a template of one `{}` slot, the peers' text is each cleaned answer wrapped in the template's text, in peer order |
| `Prompts.ConstructMessageOneSlot` | debatellm/utils/debate.py:44-66 | with such a template the prompt is the prefix, then the wrapped cleaned answers, then the closing template |
| `ExchangeOfThought.Take2` | debatellm/utils/debate.py:83-85 | `xs[:2]` is a prefix of at most two elements |
| `ExchangeOfThought.ConfidencesOrDefault` | debatellm/utils/debate.py:79-80 | without confidences, every peer gets -1.0 |
| `ExchangeOfThought.Prompt` | debatellm/utils/debate.py:100-147 | each of the four phrasings starts with the question, own solution and first peer's solution, and ends with the conclusion sentence |
| `ExchangeOfThought.ConstructEotMessage` | debatellm/utils/debate.py:69-149 | no peers gives the bare question prompt; it fails, with IndexError, exactly when a list lacks an entry that is read; otherwise the prompt has the common head and conclusion |
| `ExchangeOfThought.EotOnlyFirstTwoPeers` | debatellm/utils/debate.py:82-85 | truncating every list to two entries changes nothing |
| `ExchangeOfThought.EotPicksPrompt` | debatellm/utils/debate.py:93-98 | the first peer's entries, and the second's if there is one, feed the phrasing |
| `ExchangeOfThought.PromptPlain` | debatellm/utils/debate.py:100-121 | with the -1 sentinel, no confidence line appears, and the second solution line appears exactly when the second name is non-empty |
| `ExchangeOfThought.PromptConfident` | debatellm/utils/debate.py:123-147 | with a real first confidence, each shown peer's solution is followed by its confidence line, and the warning about low confidence is added |
| `ExchangeOfThought.EotWithoutConfidences` | debatellm/utils/debate.py:79-121 | without confidences the whole prompt, peer by peer |
| `ExchangeOfThought.EotWithConfidences` | debatellm/utils/debate.py:123-147 | with a first confidence other than -1 the whole prompt, peer by peer |
| `ExchangeOfThought.EotEmptySecondName` | debatellm/utils/debate.py:96-111 | a second peer with an empty name is treated as no second peer |
| `History.ParseMode` | debatellm/utils/debate.py:158-269 | a selector is accepted only as one of the four mode literals |
| `History.ParseModeName` | debatellm/utils/debate.py:158-212 | each mode's literal selects that mode |
| `History.AssistantView` | debatellm/utils/debate.py:158-169 | one assistant message per entry, in order, with the speaker's name and content |
| `History.Transcript` | debatellm/utils/debate.py:173-177 | the accumulated text is empty exactly when the transcript is |
| `History.TranscriptAppend` | debatellm/utils/debate.py:174-177 | the loop appends one paragraph per entry: the text of two transcripts in a row is the two texts in a row |
| `History.OnePromptMessage` | debatellm/utils/debate.py:171-185 | a `one_prompt` message is a user turn named "user" |
| `History.OnePromptView` | debatellm/utils/debate.py:171-185 | `one_prompt` returns exactly one user message, with empty content for an empty transcript |
| `History.OnePromptExample` | debatellm/utils/debate.py:171-185 | two entries become "Alice arguing: x\n\nBob arguing: y": a blank line between entries and none outside |
| `History.JudgeSegmentsCover` | debatellm/utils/debate.py:192-206 | cutting at Judge entries keeps every other entry, in order |
| `History.JudgeFold` | debatellm/utils/debate.py:189-208 | each Judge entry adds two messages and the end adds one more |
| `History.JudgeFoldRoles` | debatellm/utils/debate.py:189-208 | the loop keeps the messages it starts with, and those it adds alternate: a user message, then the Judge's reply as an assistant message, ending with a user message |
| `History.JudgeView` | debatellm/utils/debate.py:187-210 | with J Judge entries, `tsinghua_judge` returns 2J+1 messages |
| `History.JudgeFoldIsReference` | debatellm/utils/debate.py:187-210 | the `tsinghua_judge` loop yields the segments rendered by `one_prompt`, interleaved with the Judge contents |
| `History.JudgeViewShape` | debatellm/utils/debate.py:187-210 | with J Judge entries: 2J+1 messages alternating user and assistant, user first and last |
| `History.JudgeViewAt` | debatellm/utils/debate.py:187-210 | the k-th assistant message is the k-th Judge content under the current agent's name; the k-th user message is `one_prompt` of the k-th segment |
| `History.JudgeBackToBack` | debatellm/utils/debate.py:195-208 | two Judge entries in a row still produce an empty user message before, between and after them |
| `History.SpeakersBound` | debatellm/utils/debate.py:218-225 | there are no more distinct non-Judge speakers than non-Judge entries |
| `History.ShortDebateIsTwoAgent` | debatellm/utils/debate.py:218-227 | a transcript with at most two non-Judge entries always counts as a two-agent debate |
| `History.TwoSpeakers` | debatellm/utils/debate.py:218-227 | a, b, a (neither a Judge) has exactly the speakers a and b |
| `History.MadFold` | debatellm/utils/debate.py:229-266 | each of the agent's own entries adds two messages and the end adds one more |
| `History.MadFoldRoles` | debatellm/utils/debate.py:229-266 | the loop keeps the messages it starts with, and those it adds alternate: a user message, then the agent's own entry as an assistant message, ending with a user message |
| `History.MadView` | debatellm/utils/debate.py:212-267 | with C own entries, `tsinghua_mad` returns 2C+1 messages |
| `History.Flush` | debatellm/utils/debate.py:236-242 | a flushed user turn is named "user" and its text has no outer newline |
| `History.ChunksMulti` | debatellm/utils/debate.py:253-258 | with three or more speakers, a run of other agents' entries reads as in `one_prompt` |
| `History.ChunksTwo` | debatellm/utils/debate.py:253-258 | with two speakers, a run is the plain concatenation of the contents |
| `History.MadFoldIsReference` | debatellm/utils/debate.py:212-267 | the `tsinghua_mad` loop yields one user message per run of other agents' entries, interleaved with the agent's own entries |
| `History.MadViewShape` | debatellm/utils/debate.py:212-267 | with C own entries: 2C+1 messages alternating user and assistant, user first and last |
| `History.MadViewAt` | debatellm/utils/debate.py:212-267 | the k-th assistant message is the agent's k-th entry; the k-th user message is the stripped text of the k-th run of other agents' entries |
| `History.MadUserTexts` | debatellm/utils/debate.py:218-258 | a user message carries no "arguing" prefix in a two-agent debate, and is the `one_prompt` rendering of its run otherwise |
| `History.MadSegmentsWithoutJudges` | debatellm/utils/debate.py:229-232 | removing Judge entries changes neither the runs nor the agent's own entries |
| `History.MadIgnoresJudges` | debatellm/utils/debate.py:218-232 | Judge entries contribute nothing to the `tsinghua_mad` view |
| `History.MadExchange` | debatellm/utils/debate.py:212-267 | if a speaks, b answers and a speaks again, a's view is an empty user turn, a's entry, b's answer, a's entry, and an empty user turn |
| `History.ConstructMessageFromHistory` | debatellm/utils/debate.py:152-269 | fails exactly on an unknown mode, with the invalid-mode error; each mode literal gives that mode's view, so the length is the transcript's, one, 2J+1 or 2C+1 by the views' own contracts |
| `Vote.Count` | debatellm/utils/debate.py:287 | `list.count(i)` is the multiplicity of `i` in the list |
| `Vote.CountPositive` | debatellm/utils/debate.py:287-288 | an element of the list is counted at least once, so the first element always replaces the initial count of 0 |
| `Vote.MostFrequent` | debatellm/utils/debate.py:282-292 | an empty list is an IndexError; otherwise the result is an element with its count, no element occurs more often, and every element before its first occurrence occurs less often |
| `Vote.MostFrequentUnique` | debatellm/utils/debate.py:282-292 | at most one element and count fit that description, so it fixes the result |
| `Vote.TieGoesToFirst` | debatellm/utils/debate.py:288-290 | in a, b, b, a both occur twice and a, which comes first, is the one chosen |

## Left out

- `str.format` fields other than the automatic `{}` (`{0}`, `{name}`, format specs and conversions) end in the model's `UnsupportedField` error. The `agent_response` template is used with `{}` only.
- The decimal rendering of a float confidence is the parameter `show`. Python's float-to-text conversion is not modelled.
- Confidences are `real`. Floating-point comparison with -1 is read as exact equality.
- `agent_name` and `mode` may be `None` in Python. The model takes strings, so the default `agent_name` is `""` and an absent mode is not representable. A mode of `None` would be rejected by Python's `ValueError` branch, just as any non-literal string is rejected here.
- `partial_format` takes its keyword values as strings. `str(value)` for other Python types is not modelled.
- `remove_spaces_in_name` mutates its argument and returns it. The model returns the new list, and aliasing is not modelled.
- The regular-expression engine is replaced by the count it produces. The pattern is an escaped literal inside a lookahead, which matches at every position where the question starts.
- `download_datasets.py` and `scripts/run_eval.py` are I/O plumbing and are not part of this model.
- On consecutive Judge entries in `tsinghua_judge`, one might expect the empty segment between them to contribute nothing. The code emits an empty `one_prompt` user message for it, and the model follows the code (`History.JudgeBackToBack`).

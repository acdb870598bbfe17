# Manuscript correction service — verified model of its core

This project is a Dafny model of the deterministic core of a NestJS service that corrects French
manuscripts with a language model. The service reads a DOCX file and splits its text into chunks of
about 1000 tokens. Each new chunk is seeded with the last three sentences of the chunk before it.
The engine corrects each chunk, with a retry loop around every call. Replies whose corrections are
too long are rejected, and the rejection is fed back into the next attempt's prompt. The service
then shifts each correction to its position in the whole document and sends the corrections back, in
groups of 15, to be checked for false positives. Token usage is accumulated along the way.

Modules, one file each:

- `Wrappers` (`wrappers.dfy`): `Option` and `Result`.
- `Types` (`types.dfy`): the shared records: chunk, correction, token usage, correction response.
- `Text` (`text.dfy`): the string operations the code relies on: JavaScript `trim`, `split` on the
  three patterns used (`/\n\n+/`, `/[.!?]+\s+/`, `' '`), `join`, decimal printing, JSON strings.
- `Document` (`document.dfy`): `splitIntoChunks`, `extractLastSentences`, `estimateTokens`.
- `Retry` (`retry.dfy`): the `withRetry` attempt loop.
- `CorrectionValidator` (`validator.dfy`): `hasLongCorrections`.
- `TokenUsageAccounting` (`token_usage.dfy`): the `TokenUsageService` class.
- `CorrectionPrompts` (`prompts.dfy`): `buildCorrectionSystemPrompt` and the few-shot example.
- `Ai` (`ai.dfy`): `correctChunk` and `verifyCorrections`.
- `ChunkProcessor` (`chunk_processor.dfy`): `processChunk` and `verifyCorrectionsInBatches`.

How the model is built:

- The language-model engine is a function parameter. It takes the attempt number and the request,
  and returns either a failure message or a completion. A completion holds the token usage and a
  reply that is already classified as empty, unparsable or parsed into corrections or verdicts.
- `withRetry` is a function over an attempt state threaded through the operation. In
  `correctChunk` that state is the captured `retryFeedback` variable. A method with the source's
  counted loop is proved equal to the function.
- `splitIntoChunks` is a method that splits the text and then runs the source's loop over its four
  variables (`ChunkParagraphs`). One iteration is the method `AddParagraph`. The result is proved
  to report the windows of a specification function: each window is a seed followed by whole
  paragraphs.
- `TokenUsageService` is a class whose methods update its `totalUsage` field in place.
- `buildCorrectionSystemPrompt` is a method that appends step by step. It is proved equal to a
  concatenation function, and the prompt's layout is proved about that function.

## Model

| member | source | states |
|---|---|---|
| Document.EstimateTokens | src/modules/document/document.service.ts:114-116 | the estimate is the ceiling of length / 4: 4·n ≥ length and 4·n < length + 4 |
| Document.ExtractLastSentences | src/modules/document/document.service.ts:98-109 | the overlap seed: the text itself when it has at most `count` sentences, otherwise the last `count` sentences joined by ". " with a final "." when the text ends with one; its properties are `OverlapIsNormalisedTail` and `OverlapNonEmpty` |
| Document.OverlapIsNormalisedTail | src/modules/document/document.service.ts:98-109 | when the text has more sentences than `count`, the overlap is the text's last `count` sentences with every break normalised to ". ", plus a final "." exactly when the text ends with one; the un-normalised tail is a suffix of the text |
| Document.OverlapNonEmpty | src/modules/document/document.service.ts:98-109 | the overlap of a non-empty text, for three sentences, is never empty |
| Document.SplitIntoChunks | src/modules/document/document.service.ts:38-93 | chunk k has index k and the trimmed text of window k of the `/\n\n+/` paragraphs; the first starts at 0; each starts where the previous ended; end − start is the untrimmed length; there are no chunks exactly when every paragraph is empty |
| Document.ChunkParagraphs | src/modules/document/document.service.ts:44-92 | the loop over the paragraphs and the final push report the windows of those paragraphs, with the same numbering and positions |
| Document.AddParagraph | src/modules/document/document.service.ts:51-78 | one iteration keeps the loop invariant: the pending chunk is the open window's text and the pushed chunks report the closed windows |
| Document.ScanStep | src/modules/document/document.service.ts:51-78 | the flush branch (push, reseed with the overlap, then append) and the plain append both advance the invariant by one paragraph |
| Document.ScanFinish | src/modules/document/document.service.ts:81-89 | after the last paragraph, the pushed chunks plus the pending one when non-empty are exactly the reported windows |
| Document.WindowsCoverParagraphs | src/modules/document/document.service.ts:42-79 | paragraphs are never split: the windows' paragraphs, in order, are exactly the `/\n\n+/` paragraphs of the text; no window exactly when all are empty |
| Document.WindowsSeeded | src/modules/document/document.service.ts:45-78 | the first window starts empty and every later one starts with the last three sentences of the previous window's untrimmed text |
| Document.WindowsFlushRule | src/modules/document/document.service.ts:52-78 | a window is closed only when it is non-empty and its length plus the next paragraph's exceeds 4000, and every paragraph added to a window fitted by that test |
| Document.WindowsNonEmpty | src/modules/document/document.service.ts:82 | every reported window has non-empty untrimmed text |
| Document.ConsumeConsistent | src/modules/document/document.service.ts:50-79 | after any prefix of the paragraphs the loop state keeps all of the invariants above |
| Document.StepShape | src/modules/document/document.service.ts:52-78 | one loop step either closes the window and starts the next as overlap + paragraph, or appends "\n\n" + paragraph (no separator onto an empty chunk) |
| Document.JoinIsInterleave | src/modules/document/document.service.ts:107 | joining with ". " is interleaving with copies of ". " |
| Document.Windows | src/modules/document/document.service.ts:42-89 | the specification of the chunker: the windows closed by the loop, then the open one when its text is not empty; `WindowsCoverParagraphs`, `WindowsSeeded`, `WindowsFlushRule` and `WindowsNonEmpty` state what they are, and `ChunkParagraphs` is proved against it |
| Text.SplitReconstructs | src/modules/document/document.service.ts:42-100 | a split followed by re-inserting the matched separators gives back the text |
| Text.SplitEmpty | src/modules/document/document.service.ts:42 | splitting the empty string gives one empty segment |
| Text.Trim | src/modules/document/document.service.ts:85 | `String.prototype.trim`: leading, then trailing ECMAScript white space removed; no longer than its input, and `TrimInfix` and `TrimEmpty` say what it keeps |
| Text.Split | src/modules/document/document.service.ts:42 | `String.prototype.split` on one of the three patterns: the segments between maximal separator matches, scanned left to right; `SplitReconstructs` and `SpaceSplitCount` are its partners |
| Text.TrimInfix | src/modules/document/document.service.ts:59-85 | `trim` keeps a contiguous infix and removes only whitespace, leaving no whitespace at either end |
| Text.TrimEmpty | src/modules/correction/chunk-processor.ts:39 | a string trims to "" exactly when it is all whitespace |
| Text.SpaceSplitCount | src/modules/ai/validators/correction-validator.service.ts:11 | `split(' ')` gives one more segment than there are spaces |
| Text.CountCharAbsent | src/modules/ai/validators/correction-validator.service.ts:11 | a string holds no space exactly when its space count is zero |
| Text.NatToStringRoundTrip | src/modules/ai/ai.service.ts:67 | the decimal rendering of a number reads back as that number |
| Retry.WithRetry | src/modules/ai/utils/retry.util.ts:8-36 | the counted attempt loop yields the result, final state, number of invocations and `onRetry` log of the specification function |
| Retry.RetrySucceeds | src/modules/ai/utils/retry.util.ts:14-31 | when attempts 1..k fail and attempt k+1 ≤ maxRetries succeeds, its value is returned after k+1 invocations and `onRetry` was called k times with attempts 1..k in order |
| Retry.RetryExhausts | src/modules/ai/utils/retry.util.ts:26-35 | when all maxRetries attempts fail, the last attempt's error is thrown after maxRetries invocations and `onRetry` was called maxRetries−1 times, never after the last attempt |
| Retry.RetryOutcome | src/modules/ai/utils/retry.util.ts:14-35 | conversely, a value is returned only by the first success within the limit, and an error only when every attempt failed |
| Retry.RetryNeverInvoked | src/modules/ai/utils/retry.util.ts:12-35 | with maxRetries ≤ 0 the operation never runs and the undefined `lastError` is thrown |
| Retry.RetryBounded | src/modules/ai/utils/retry.util.ts:14-29 | the operation runs at most max(maxRetries, 0) times, and `onRetry` only ever names an attempt below maxRetries |
| Retry.RetryFromSucceeds | src/modules/ai/utils/retry.util.ts:14-31 | the success case from any attempt number, with the state and log |
| Retry.RetryFromExhausts | src/modules/ai/utils/retry.util.ts:14-35 | the exhaustion case from any attempt number, with the state and log |
| Retry.RetryFromOutcome | src/modules/ai/utils/retry.util.ts:14-35 | the converse case split from any attempt number |
| Retry.RetryFromBounded | src/modules/ai/utils/retry.util.ts:14-29 | the invocation and `onRetry` bounds from any attempt number |
| Retry.StateLatches | src/modules/ai/ai.service.ts:39-68 | an attempt state that an outcome sets to a fixed value and that is otherwise left alone holds that value exactly after some earlier outcome set it |
| CorrectionValidator.WordCount | src/modules/ai/validators/correction-validator.service.ts:11 | the segment count is the number of spaces + 1, so "" counts 1 and doubled spaces count extra |
| CorrectionValidator.HasLongCorrections | src/modules/ai/validators/correction-validator.service.ts:9-13 | some correction has more than `maxWords` words; `FirstLongDecides` and `LongBySpaces` restate it as the scan and as a space count |
| CorrectionValidator.FirstLong | src/modules/ai/validators/correction-validator.service.ts:10-12 | the `some` scan returns the first index whose word count exceeds the limit, and none when no index does |
| CorrectionValidator.FirstLongDecides | src/modules/ai/validators/correction-validator.service.ts:9-13 | the scan finds an index exactly when some correction is too long; an empty list is never flagged |
| CorrectionValidator.LongMonotone | src/modules/ai/validators/correction-validator.service.ts:10 | a list containing a flagged list as a sub-multiset is flagged too |
| CorrectionValidator.LongPersists | src/modules/ai/validators/correction-validator.service.ts:10 | adding corrections before or after a flagged list keeps it flagged |
| CorrectionValidator.LongBySpaces | src/modules/ai/validators/correction-validator.service.ts:11 | a list is flagged exactly when some correction has at least maxWords spaces |
| CorrectionValidator.SingleWordsAccepted | src/modules/ai/validators/correction-validator.service.ts:11 | with a limit of at least 1, corrections without spaces are never flagged |
| TokenUsageAccounting.TokenUsageService.constructor | src/modules/ai/token-usage.service.ts:6-10 | a fresh service has all three totals at 0 |
| TokenUsageAccounting.TokenUsageService.AddUsage | src/modules/ai/token-usage.service.ts:15-19 | each of the three totals grows by the added field; total = prompt + completion is preserved |
| TokenUsageAccounting.TokenUsageService.GetTotalUsage | src/modules/ai/token-usage.service.ts:24-26 | returns the current totals, which are the componentwise sum of every usage added since the last reset, and changes nothing |
| TokenUsageAccounting.TokenUsageService.Reset | src/modules/ai/token-usage.service.ts:35-41 | all three totals become 0 and the history of added usages restarts |
| TokenUsageAccounting.SumUsageAppend | src/modules/ai/token-usage.service.ts:15-19 | the sum over two runs of adds is the sum of their sums |
| TokenUsageAccounting.SumUsageOrder | src/modules/ai/token-usage.service.ts:15-19 | the order in which usages are added does not change the totals |
| TokenUsageAccounting.SumConsistent | src/modules/ai/token-usage.service.ts:16-18 | if every added usage has total = prompt + completion, so do the totals |
| CorrectionPrompts.BuildCorrectionSystemPrompt | src/modules/ai/prompts/correction-prompts.ts:1-27 | the step-by-step appends produce the rules, the optional style section, the optional feedback section and the JSON instruction, in that order |
| CorrectionPrompts.SystemPrompt | src/modules/ai/prompts/correction-prompts.ts:1-27 | the prompt as the rules, the style section, the feedback section and the JSON instruction in that order; its layout is stated by `PromptFrame`, `PromptStyle`, `PromptFeedback`, `PromptPlain` and `FeedbackDetermined` |
| CorrectionPrompts.PromptFrame | src/modules/ai/prompts/correction-prompts.ts:5-24 | every prompt starts with the fixed rules and ends with the fixed JSON instruction |
| CorrectionPrompts.PromptStyle | src/modules/ai/prompts/correction-prompts.ts:15-17 | the text right after the rules starts with "\n\nStyle auteur: " exactly when the style guide is non-empty, followed by that guide |
| CorrectionPrompts.PromptFeedback | src/modules/ai/prompts/correction-prompts.ts:19-24 | a non-empty feedback puts the URGENT header and the feedback right before the JSON instruction; an absent or empty one leaves rules + style + instruction |
| CorrectionPrompts.PromptPlain | src/modules/ai/prompts/correction-prompts.ts:15-24 | with neither style nor feedback the prompt is exactly the rules followed by the instruction |
| CorrectionPrompts.FeedbackDetermined | src/modules/ai/prompts/correction-prompts.ts:19-21 | two prompts with the same style are equal only when they carry the same feedback, or both none |
| CorrectionPrompts.FewShotAsWrittenMisplaced | src/modules/ai/prompts/correction-prompts.ts:31-69 | the five examples as written, which `Ai.Conversation` sends, each change their text and name one of the four correction types; the first three point at their `original` in the sentence, the fourth and fifth do not |
| CorrectionPrompts.FewShotWellFormed | src/modules/ai/prompts/correction-prompts.ts:31-69 | the five corrected examples each point at their `original` in the sentence and change it |
| Ai.LongCorrectionFeedback | src/modules/ai/ai.service.ts:67-68 | the rejection feedback is never empty, so the next prompt always carries it |
| Ai.Conversation | src/modules/ai/ai.service.ts:49-55 | the four messages of an attempt: system prompt, the example sentence, the example reply with the examples as written, then the chunk; `PromptCarriesFeedback` states its system message |
| Ai.CorrectionAttempt | src/modules/ai/ai.service.ts:43-79 | an accepted attempt's corrections are never too long; the feedback becomes the rejection text exactly when the attempt is rejected as too long, and is otherwise unchanged |
| Ai.CorrectChunk | src/modules/ai/ai.service.ts:27-108 | the retried call returns the specified response, whose corrections are never too long |
| Ai.CorrectChunkResult | src/modules/ai/ai.service.ts:27-108 | the first accepted attempt's response under the retry loop, or the empty response when every attempt fails; `CorrectChunkOutcome` and `CorrectChunkNeverLong` state it |
| Ai.CorrectChunkNeverLong | src/modules/ai/ai.service.ts:66-107 | no response of `correctChunk`, success or fallback, holds a correction over the word limit |
| Ai.CorrectChunkOutcome | src/modules/ai/ai.service.ts:41-107 | the response is the first accepted attempt's corrections and usage, and the empty list with zero usage when every attempt fails |
| Ai.FeedbackBefore | src/modules/ai/ai.service.ts:39-68 | the feedback variable at the start of an attempt is set exactly when an earlier attempt was rejected as too long |
| Ai.PromptCarriesFeedback | src/modules/ai/ai.service.ts:44-55 | each attempt's system prompt is built with the feedback once an earlier attempt was rejected, and without it until then |
| Ai.ItemsToVerify | src/modules/ai/ai.service.ts:125-131 | item i has id i and the original, correction, type and explanation of correction i |
| Ai.FindVerdict | src/modules/ai/ai.service.ts:171 | the result is the first verdict with the id, and none when no verdict has it |
| Ai.ApplyVerdicts | src/modules/ai/ai.service.ts:170-176 | output i is input i with `verified` set to the first matching verdict's `valid`, or true |
| Ai.MarkAllVerified | src/modules/ai/ai.service.ts:163-193 | every correction is kept with `verified` set to true |
| Ai.VerifyCorrections | src/modules/ai/ai.service.ts:110-195 | the output has the input's length and order, and each item keeps every field but `verified`, which is always set |
| Ai.VerifyResult | src/modules/ai/ai.service.ts:110-195 | the input unchanged when empty, the verdicts applied when the retried call succeeds, and every correction marked verified otherwise; `VerifyResultStamps`, `FalsePositiveOnlyByVerdict` and `VerificationFailsOpen` state it |
| Ai.VerifyResultStamps | src/modules/ai/ai.service.ts:111-194 | the same length, order and field guarantees for the specification function, on every path |
| Ai.FalsePositiveOnlyByVerdict | src/modules/ai/ai.service.ts:158-194 | a correction ends up `verified = false` exactly when the call succeeded, the reply parsed and the first verdict for its index says `valid: false` |
| Ai.VerificationFailsOpen | src/modules/ai/ai.service.ts:187-194 | when every attempt fails, every correction is kept and marked verified |
| ChunkProcessor.Clean | src/modules/correction/chunk-processor.ts:38-40 | every kept correction changes its text and has a non-blank correction, and the kept ones are a subsequence of the input |
| ChunkProcessor.CleanCounts | src/modules/correction/chunk-processor.ts:38-40 | each correction passing the filter is kept as often as it occurs, and no other correction is kept |
| ChunkProcessor.ProcessChunk | src/modules/correction/chunk-processor.ts:24-59 | on failure: no corrections and zero usage; otherwise usage is passed through and each kept correction, in order, is shifted by the chunk's start, stamped with chunk index + 1 and otherwise unchanged |
| ChunkProcessor.ProcessedAreClean | src/modules/correction/chunk-processor.ts:38-40 | no returned correction is a no-op or blank |
| ChunkProcessor.ProcessedNeverLong | src/modules/correction/chunk-processor.ts:32-50 | no returned correction exceeds the word limit |
| ChunkProcessor.Group | src/modules/correction/chunk-processor.ts:78-81 | the grouping loop builds the consecutive slices of the specification |
| ChunkProcessor.BatchesFlatten | src/modules/correction/chunk-processor.ts:78-89 | concatenating the groups gives back the input |
| ChunkProcessor.BatchesCount | src/modules/correction/chunk-processor.ts:79 | there are ceil(n / itemsPerCall) groups, none for no input |
| ChunkProcessor.BatchesSizes | src/modules/correction/chunk-processor.ts:80 | every group but the last has itemsPerCall items, the last between 1 and itemsPerCall |
| ChunkProcessor.VerifyEachIndex | src/modules/correction/chunk-processor.ts:84-87 | result j is the verification of group j |
| ChunkProcessor.FlattenStamped | src/modules/correction/chunk-processor.ts:89 | flattening results that match their groups item by item matches the flattened groups item by item |
| ChunkProcessor.VerifiedInBatchesStamps | src/modules/correction/chunk-processor.ts:64-99 | batched verification returns the corrections in order, each unchanged but for a set `verified` |
| ChunkProcessor.VerifiedInBatches | src/modules/correction/chunk-processor.ts:64-99 | empty for no corrections, otherwise the concatenated verification results of the groups in group order; `VerifiedInBatchesStamps` states it |
| ChunkProcessor.VerifyCorrectionsInBatches | src/modules/correction/chunk-processor.ts:64-99 | the loop yields the specified result: empty for empty input, the same length and order, every field but `verified` kept |

## Left out

- The per-attempt timeout (`Promise.race`) and the delay between attempts are timers. Only the sequence of attempt outcomes is modelled; a timeout is one more engine failure of that attempt.
- Ai.FeedbackBefore, Ai.PromptCarriesFeedback: `Promise.race` does not cancel an attempt that lost to the timeout, so its late reply can still reach src/modules/ai/ai.service.ts:66-68 and set `retryFeedback` while a later attempt is under way. That attempt's prompt, or the next one's, then carries the feedback although no attempt that `withRetry` saw was rejected as too long. The model has no abandoned attempts, so it does not capture this.
- `processWithConcurrency` runs tasks concurrently but stores each result at its task's index. It is modelled as an order-preserving sequential map, and the `concurrency` parameter is dropped.
- The OpenAI client, `choices[0]?.message?.content` and `JSON.parse` are foreign code. The engine is a function of attempt number and request. Its reply comes pre-classified as no content, unparsable, or parsed. A parsed reply that is malformed (for example `results` not being an array) falls under unparsable.
- The verification system prompt: src/modules/ai/prompts/verification-prompts.ts is not part of this model. The request carries only the JSON list of items.
- Firestore, Firebase, mammoth DOCX extraction, job orchestration, UUIDs, the HTTP controller, logging and the wall-clock durations are all I/O.
- Environment parsing in the AI config service: `maxRetries` and `maxCorrectionWords` are parameters (`Ai.Config`), and the float temperature is not modelled.
- String lengths and positions count Dafny characters, not UTF-16 code units. They differ only for characters outside the Basic Multilingual Plane.
- A `valid` field that is not a boolean is not modelled: a verdict's `valid` is a boolean or absent.
- ChunkProcessor.ProcessChunk takes the outcome of `correctChunk` as a `Result` instead of calling it. `Ai.CorrectChunk` never fails, so the `Err` branch stands for a throw from outside the model. The chunk index passed to `correctChunk` only labels log lines.
- `processChunk` never passes a style guide. `ChunkProcessor.ProcessedNeverLong` uses `None` to match.
- ChunkProcessor.VerifyCorrectionsInBatches uses one engine function for every group. Each group's call is independent in the source as well.
- ChunkProcessor.VerifyCorrectionsInBatches, ChunkProcessor.Group: require `itemsPerCall > 0`. With 0 the source's grouping loop never advances. The default is 15.
- The chunker has no hard length bound: its test ignores the "\n\n" separator and the overlap prepended after a flush. Only the flush rule is stated (`Document.WindowsFlushRule`).

## Findings

| source | as written | input that shows it | evidently intended | confidence | as-written member | corrected member |
|---|---|---|---|---|---|---|
| src/modules/ai/prompts/correction-prompts.ts:56-63 | the few-shot corrections for "a clef" and "brillait" carry positions 59 and 77 | the example sentence "Il arrivas en courant, essouflé; la porte était fermée a clef. Ses yeux brillait de peur.": its characters at 59 and 77 are not "a clef" and "brillait" | positions 55 and 72, where those words start, as the first three examples point at theirs | not executed | CorrectionPrompts.FewShotAsWrittenMisplaced | CorrectionPrompts.FewShotWellFormed |

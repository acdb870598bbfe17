/**
 * The engine-facing service (src/modules/ai/ai.service.ts).
 *
 * `correctChunk` asks the engine for the corrections of one chunk under the
 * retry helper; a reply whose content is missing or unparsable, or that
 * holds a correction longer than the configured number of words, fails the
 * attempt, and a too-long reply also leaves a feedback text that every
 * later attempt's system prompt carries. When every attempt fails the call
 * yields no correction and zero usage.
 *
 * `verifyCorrections` sends the corrections, numbered by their index, to
 * the engine under the retry helper and stamps each with the verdict the
 * reply gives for its index; a missing verdict, a missing or unparsable
 * reply and a failure of every attempt all count as "verified".
 *
 * The engine is a function of the attempt number and of the request, so
 * that any sequence of replies can be expressed; the usage it reports is
 * part of its reply.
 */
module Ai {
  import opened Wrappers
  import opened Types
  import opened Text
  import opened Retry
  import opened CorrectionValidator
  import opened CorrectionPrompts

  /** The two settings the service reads (src/modules/ai/config/ai-config.service.ts). */
  datatype Config = Config(maxRetries: int, maxCorrectionWords: int)

  datatype Role = System | User | Assistant

  datatype Message = Message(role: Role, content: string)

  /** What the content of the engine's first choice amounts to: absent or
      empty, text that `JSON.parse` (or the field access after it) rejects,
      or the parsed value. */
  datatype Reply<T> = NoContent | Unparsable | Parsed(value: T)

  datatype Completion<T> = Completion(content: Reply<T>, usage: TokenUsage)

  /** Why one correction attempt failed. */
  datatype AttemptError =
    | EngineFailure(message: string)
    | NoResponse
    | ParseFailure
    | CorrectionTooLong(maxWords: int)

  // ---------------------------------------------------------------------------
  // correctChunk

  /** What one correction attempt asks of the engine; `Conversation` gives
      the messages it stands for. */
  datatype CorrectionRequest = CorrectionRequest(styleGuide: Option<string>, feedback: Option<string>, text: string)

  type CorrectionEngine = (nat, CorrectionRequest) -> Result<Completion<seq<Correction>>, string>

  /** The feedback left by a reply with a too-long correction. */
  function LongCorrectionFeedback(maxWords: int): (r: string)
    ensures r != ""
  {
    LongFeedbackOpening + IntToString(maxWords) + LongFeedbackReminder
  }

  const LongFeedbackOpening: string :=
    "ATTENTION: Une précédente réponse a été rejetée car certaines corrections dépassaient la limite de "

  const LongFeedbackReminder: string :=
    " mots.\nRAPPEL IMPÉRATIF: Chaque correction doit faire STRICTEMENT entre 3 et 6 mots. C'est une contrainte technique bloquante."

  /** The conversation sent for one attempt: the system prompt, the example
      exchange with the examples as the source writes them, then the chunk. */
  function Conversation(request: CorrectionRequest): seq<Message> {
    [ Message(System, SystemPrompt(request.styleGuide, request.feedback)),
      Message(User, FewShotUser),
      Message(Assistant, FewShotAssistant(FewShotExamplesAsWritten)),
      Message(User, request.text) ]
  }

  /** One attempt of the operation `correctChunk` hands to `withRetry`: its
      outcome, and the feedback variable as the attempt leaves it. */
  function CorrectionAttempt(engine: CorrectionEngine, config: Config, text: string, styleGuide: Option<string>,
                             feedback: Option<string>, attempt: nat): (r: (Result<CorrectionResponse, AttemptError>, Option<string>))
    ensures r.0.Ok? ==> !HasLongCorrections(r.0.value.corrections, config.maxCorrectionWords)
    ensures r.1 == (if r.0 == Err(CorrectionTooLong(config.maxCorrectionWords))
                    then Some(LongCorrectionFeedback(config.maxCorrectionWords)) else feedback)
  {
    match engine(attempt, CorrectionRequest(styleGuide, feedback, text))
    case Err(message) => (Err(EngineFailure(message)), feedback)
    case Ok(completion) =>
      match completion.content
      case NoContent => (Err(NoResponse), feedback)
      case Unparsable => (Err(ParseFailure), feedback)
      case Parsed(corrections) =>
        if HasLongCorrections(corrections, config.maxCorrectionWords) then
          (Err(CorrectionTooLong(config.maxCorrectionWords)), Some(LongCorrectionFeedback(config.maxCorrectionWords)))
        else
          (Ok(CorrectionResponse(corrections, completion.usage)), feedback)
  }

  function CorrectionOp(engine: CorrectionEngine, config: Config, text: string, styleGuide: Option<string>)
    : (Option<string>, nat) -> (Result<CorrectionResponse, AttemptError>, Option<string>)
  {
    (feedback: Option<string>, attempt: nat) => CorrectionAttempt(engine, config, text, styleGuide, feedback, attempt)
  }

  const EmptyResponse := CorrectionResponse([], ZeroUsage)

  /** What `correctChunk` returns. */
  function CorrectChunkResult(engine: CorrectionEngine, config: Config, text: string, styleGuide: Option<string>): CorrectionResponse {
    match Retry.Retry(CorrectionOp(engine, config, text, styleGuide), None, config.maxRetries).result
    case Ok(response) => response
    case Err(_) => EmptyResponse
  }

  /** `correctChunk`: the retried attempts, with the failure of all of them
      turned into an empty response. */
  method CorrectChunk(engine: CorrectionEngine, config: Config, text: string, styleGuide: Option<string>)
    returns (response: CorrectionResponse)
    ensures response == CorrectChunkResult(engine, config, text, styleGuide)
    ensures !HasLongCorrections(response.corrections, config.maxCorrectionWords)
  {
    var op := CorrectionOp(engine, config, text, styleGuide);
    var result, _, _, _ := WithRetry(op, None, config.maxRetries);
    match result {
      case Ok(r) => response := r;
      case Err(_) => response := EmptyResponse;
    }
    CorrectChunkNeverLong(engine, config, text, styleGuide);
  }

  /** No correction the service returns is longer than the configured limit. */
  lemma CorrectChunkNeverLong(engine: CorrectionEngine, config: Config, text: string, styleGuide: Option<string>)
    ensures !HasLongCorrections(CorrectChunkResult(engine, config, text, styleGuide).corrections, config.maxCorrectionWords)
  {
    var op := CorrectionOp(engine, config, text, styleGuide);
    var run := Retry.Retry(op, None, config.maxRetries);
    RetryOutcome(op, None, config.maxRetries);
    if run.result.Ok? {
      var j: nat :| j < config.maxRetries && FailsThrough(op, None, 1, j) && Outcome(op, None, 1, j) == Ok(run.result.value);
      var attempt := CorrectionAttempt(engine, config, text, styleGuide, StateBefore(op, None, 1, j), 1 + j);
      assert attempt.0 == Outcome(op, None, 1, j);
    }
  }

  /** The response is the first accepted reply's corrections and usage, when
      some attempt within the limit is accepted; it is empty with zero usage
      exactly when every attempt fails. */
  lemma CorrectChunkOutcome(engine: CorrectionEngine, config: Config, text: string, styleGuide: Option<string>, k: nat)
    ensures var op := CorrectionOp(engine, config, text, styleGuide);
      (k < config.maxRetries && FailsThrough(op, None, 1, k) && Outcome(op, None, 1, k).Ok?)
        ==> CorrectChunkResult(engine, config, text, styleGuide) == Outcome(op, None, 1, k).value
    ensures var op := CorrectionOp(engine, config, text, styleGuide);
      var attempts := if config.maxRetries >= 0 then config.maxRetries else 0;
      FailsThrough(op, None, 1, attempts) ==> CorrectChunkResult(engine, config, text, styleGuide) == EmptyResponse
  {
    var op := CorrectionOp(engine, config, text, styleGuide);
    var m := config.maxRetries;
    if k < m && FailsThrough(op, None, 1, k) && Outcome(op, None, 1, k).Ok? {
      RetrySucceeds(op, None, m, k);
    }
    if FailsThrough(op, None, 1, if m >= 0 then m else 0) {
      if m >= 1 {
        RetryExhausts(op, None, m);
      } else {
        RetryNeverInvoked(op, None, m);
      }
    }
  }

  /** The feedback variable as the `j + 1`-th attempt of a call starts: the
      rejection feedback once an earlier attempt was rejected as too long,
      and unset until then. */
  lemma FeedbackBefore(engine: CorrectionEngine, config: Config, text: string, styleGuide: Option<string>, j: nat)
    ensures var op := CorrectionOp(engine, config, text, styleGuide);
      StateBefore(op, None, 1, j)
        == if exists i :: 0 <= i < j && Outcome(op, None, 1, i) == Err(CorrectionTooLong(config.maxCorrectionWords))
           then Some(LongCorrectionFeedback(config.maxCorrectionWords)) else None
  {
    var op := CorrectionOp(engine, config, text, styleGuide);
    var tooLong := Err(CorrectionTooLong(config.maxCorrectionWords));
    var rejected := (o: Result<CorrectionResponse, AttemptError>) => o == tooLong;
    forall s': Option<string>, n: nat
      ensures op(s', n).1 == if rejected(op(s', n).0) then Some(LongCorrectionFeedback(config.maxCorrectionWords)) else s'
    {
      assert op(s', n) == CorrectionAttempt(engine, config, text, styleGuide, s', n);
    }
    StateLatches(op, rejected, Some(LongCorrectionFeedback(config.maxCorrectionWords)), None, 1, j);
    if exists i :: 0 <= i < j && rejected(Outcome(op, None, 1, i)) {
      var i :| 0 <= i < j && rejected(Outcome(op, None, 1, i));
      assert Outcome(op, None, 1, i) == tooLong;
    }
  }

  /** The conversation the `j + 1`-th attempt of a call sends: its system
      prompt carries the rejection feedback once an earlier attempt was
      rejected as too long, and no feedback until then. */
  lemma PromptCarriesFeedback(engine: CorrectionEngine, config: Config, text: string, styleGuide: Option<string>, j: nat)
    ensures var op := CorrectionOp(engine, config, text, styleGuide);
      var conversation := Conversation(CorrectionRequest(styleGuide, StateBefore(op, None, 1, j), text));
      conversation[0].content
        == if exists i :: 0 <= i < j && Outcome(op, None, 1, i) == Err(CorrectionTooLong(config.maxCorrectionWords))
           then SystemPrompt(styleGuide, Some(LongCorrectionFeedback(config.maxCorrectionWords)))
           else SystemPrompt(styleGuide, None)
  {
    FeedbackBefore(engine, config, text, styleGuide, j);
  }

  // ---------------------------------------------------------------------------
  // verifyCorrections

  /** One entry of the verification request. */
  datatype VerificationItem = VerificationItem(id: nat, original: string, correction: string, kind: CorrectionType, explication: string)

  /** One entry of the verification reply; `valid` is absent when the reply
      leaves it out. */
  datatype Verdict = Verdict(id: int, valid: Option<bool>)

  type VerificationEngine = (nat, string) -> Result<Completion<seq<Verdict>>, string>

  /** The corrections, numbered by their index, without position and stamps. */
  function ItemsToVerify(corrections: seq<Correction>): (items: seq<VerificationItem>)
    ensures |items| == |corrections|
    ensures forall i :: 0 <= i < |items| ==>
      items[i] == VerificationItem(i, corrections[i].original, corrections[i].correction, corrections[i].kind, corrections[i].explication)
  {
    seq(|corrections|, i requires 0 <= i < |corrections| =>
      VerificationItem(i, corrections[i].original, corrections[i].correction, corrections[i].kind, corrections[i].explication))
  }

  function ItemJson(item: VerificationItem): string {
    "{\"id\":" + NatToString(item.id)
    + ",\"original\":" + JsonString(item.original)
    + ",\"correction\":" + JsonString(item.correction)
    + ",\"type\":" + JsonString(TypeName(item.kind))
    + ",\"explication\":" + JsonString(item.explication) + "}"
  }

  /** The user message of the verification request, as `JSON.stringify` writes it. */
  function VerificationRequest(items: seq<VerificationItem>): string {
    "{\"corrections\":[" + Join(seq(|items|, i requires 0 <= i < |items| => ItemJson(items[i])), ",") + "]}"
  }

  /** `results.find(r => r.id === id)`: the first verdict for `id`. */
  function FindVerdict(verdicts: seq<Verdict>, id: int): (r: Option<Verdict>)
    ensures r.Some? ==> r.value in verdicts && r.value.id == id
    ensures r.None? ==> forall k :: 0 <= k < |verdicts| ==> verdicts[k].id != id
    ensures r.Some? ==> exists k :: 0 <= k < |verdicts| && verdicts[k] == r.value
                                    && forall k' :: 0 <= k' < k ==> verdicts[k'].id != id
    decreases |verdicts|
  {
    if verdicts == [] then None
    else if verdicts[0].id == id then Some(verdicts[0])
    else
      var r := FindVerdict(verdicts[1..], id);
      if r.Some? then
        var k :| 0 <= k < |verdicts[1..]| && verdicts[1..][k] == r.value
                 && forall k' :: 0 <= k' < k ==> verdicts[1..][k'].id != id;
        assert verdicts[k + 1] == r.value;
        r
      else r
  }

  /** The stamp `verification?.valid ?? true`. */
  function Stamp(verdicts: seq<Verdict>, id: int): bool {
    match FindVerdict(verdicts, id)
    case None => true
    case Some(v) => v.valid.GetOr(true)
  }

  /** Every correction stamped with the verdict given for its index. */
  function ApplyVerdicts(corrections: seq<Correction>, verdicts: seq<Verdict>): (r: seq<Correction>)
    ensures |r| == |corrections|
    ensures forall i :: 0 <= i < |r| ==> r[i] == corrections[i].(verified := Some(Stamp(verdicts, i)))
  {
    seq(|corrections|, i requires 0 <= i < |corrections| => corrections[i].(verified := Some(Stamp(verdicts, i))))
  }

  /** Every correction stamped as verified: the outcome whenever the
      verification itself fails. */
  function MarkAllVerified(corrections: seq<Correction>): (r: seq<Correction>)
    ensures |r| == |corrections|
    ensures forall i :: 0 <= i < |r| ==> r[i] == corrections[i].(verified := Some(true))
  {
    seq(|corrections|, i requires 0 <= i < |corrections| => corrections[i].(verified := Some(true)))
  }

  function VerificationOp(engine: VerificationEngine, request: string)
    : ((), nat) -> (Result<Completion<seq<Verdict>>, string>, ())
  {
    (u: (), attempt: nat) => (engine(attempt, request), u)
  }

  /** What `verifyCorrections` returns. */
  function VerifyResult(engine: VerificationEngine, config: Config, corrections: seq<Correction>): seq<Correction> {
    if |corrections| == 0 then []
    else
      var request := VerificationRequest(ItemsToVerify(corrections));
      match Retry.Retry(VerificationOp(engine, request), (), config.maxRetries).result
      case Err(_) => MarkAllVerified(corrections)
      case Ok(completion) =>
        match completion.content
        case NoContent => MarkAllVerified(corrections)
        case Unparsable => MarkAllVerified(corrections)
        case Parsed(verdicts) => ApplyVerdicts(corrections, verdicts)
  }

  /** `out` is `original` with its `verified` field set. */
  predicate Stamped(out: Correction, original: Correction) {
    out.verified.Some? && out == original.(verified := out.verified)
  }

  /** Verification keeps the corrections, in order, changing only their
      `verified` field, which it always sets. */
  lemma VerifyResultStamps(engine: VerificationEngine, config: Config, corrections: seq<Correction>)
    ensures var r := VerifyResult(engine, config, corrections);
      |r| == |corrections| && forall i :: 0 <= i < |r| ==> Stamped(r[i], corrections[i])
  {
  }

  /** `verifyCorrections`. */
  method VerifyCorrections(engine: VerificationEngine, config: Config, corrections: seq<Correction>)
    returns (verified: seq<Correction>)
    ensures verified == VerifyResult(engine, config, corrections)
    ensures |verified| == |corrections|
    ensures forall i :: 0 <= i < |verified| ==> Stamped(verified[i], corrections[i])
  {
    if |corrections| == 0 {
      return [];
    }
    var items := ItemsToVerify(corrections);
    var request := VerificationRequest(items);
    var result, _, _, _ := WithRetry(VerificationOp(engine, request), (), config.maxRetries);
    match result {
      case Err(_) =>
        verified := MarkAllVerified(corrections);
      case Ok(completion) =>
        match completion.content {
          case NoContent =>
            verified := MarkAllVerified(corrections);
          case Unparsable =>
            verified := MarkAllVerified(corrections);
          case Parsed(verdicts) =>
            verified := ApplyVerdicts(corrections, verdicts);
        }
    }
  }

  /** A correction is marked as a false positive only when the reply's first
      verdict for its index says `valid: false`; every other field is kept. */
  lemma FalsePositiveOnlyByVerdict(engine: VerificationEngine, config: Config, corrections: seq<Correction>, i: nat)
    requires i < |corrections|
    ensures var r := VerifyResult(engine, config, corrections);
      |r| == |corrections| && r[i] == corrections[i].(verified := r[i].verified)
      && (r[i].verified == Some(false) <==>
            exists completion: Completion<seq<Verdict>> ::
              Retry.Retry(VerificationOp(engine, VerificationRequest(ItemsToVerify(corrections))), (), config.maxRetries).result == Ok(completion)
              && completion.content.Parsed?
              && FindVerdict(completion.content.value, i).Some?
              && FindVerdict(completion.content.value, i).value.valid == Some(false))
  {
    var run := Retry.Retry(VerificationOp(engine, VerificationRequest(ItemsToVerify(corrections))), (), config.maxRetries);
    if run.result.Ok? {
      var completion := run.result.value;
      assert run.result == Ok(completion);
    }
  }

  /** When every verification attempt fails, every correction is kept and marked verified. */
  lemma VerificationFailsOpen(engine: VerificationEngine, config: Config, corrections: seq<Correction>)
    requires var op := VerificationOp(engine, VerificationRequest(ItemsToVerify(corrections)));
      FailsThrough(op, (), 1, if config.maxRetries >= 0 then config.maxRetries else 0)
    ensures VerifyResult(engine, config, corrections) == MarkAllVerified(corrections)
  {
    var op := VerificationOp(engine, VerificationRequest(ItemsToVerify(corrections)));
    if config.maxRetries >= 1 {
      RetryExhausts(op, (), config.maxRetries);
    } else {
      RetryNeverInvoked(op, (), config.maxRetries);
    }
  }
}

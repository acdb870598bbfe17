/** The records the pipeline passes between its stages (src/common/types/index.ts). */
module Types {
  import opened Wrappers

  /** A window of the manuscript: `text` is trimmed, the positions delimit the
      untrimmed window in the running sum of window lengths. */
  datatype TextChunk = TextChunk(index: nat, text: string, startPosition: nat, endPosition: nat)

  /** The four categories a correction may carry. */
  datatype CorrectionType = Orthographe | Grammaire | Ponctuation | Syntaxe

  /** The string the source stores in a correction's `type` field. */
  function TypeName(k: CorrectionType): string {
    match k
    case Orthographe => "orthographe"
    case Grammaire => "grammaire"
    case Ponctuation => "ponctuation"
    case Syntaxe => "syntaxe"
  }

  /** A proposed point edit. `kind` is the source's `type` field; `verified`
      is `None` until the verification pass, `chunkIndex` is 1-based and
      `None` until the chunk processor stamps it. */
  datatype Correction = Correction(
    position: int,
    original: string,
    correction: string,
    kind: CorrectionType,
    explication: string,
    verified: Option<bool>,
    chunkIndex: Option<int>)

  datatype TokenUsage = TokenUsage(promptTokens: nat, completionTokens: nat, totalTokens: nat)

  const ZeroUsage := TokenUsage(0, 0, 0)

  /** What the correction of one chunk yields. */
  datatype CorrectionResponse = CorrectionResponse(corrections: seq<Correction>, usage: TokenUsage)
}

/**
 * The per-chunk and per-batch steps of the correction pipeline
 * (src/modules/correction/chunk-processor.ts).
 *
 * `processChunk` keeps the corrections that change something and whose
 * replacement is not blank, moves their positions from the chunk into the
 * document, and stamps them with the 1-based chunk number.
 *
 * `verifyCorrectionsInBatches` cuts the corrections into consecutive groups
 * of `itemsPerCall`, verifies each group, and concatenates the results in
 * group order. The groups are verified one after the other here; the source
 * runs them through a bounded pool whose results are stored by group index,
 * so the order of the output is the same.
 */
module ChunkProcessor {
  import opened Wrappers
  import opened Types
  import opened Text
  import opened CorrectionValidator
  import Ai

  /** The part of a chunk the processor reads. */
  datatype ChunkData = ChunkData(text: string, index: nat, startPosition: nat)

  // ---------------------------------------------------------------------------
  // processChunk

  /** The filter's test: the correction changes the text and its replacement
      is not blank. */
  predicate Keep(c: Correction) {
    c.original != c.correction && Trim(c.correction) != ""
  }

  /** `b` can be obtained by deleting elements of `a`. */
  predicate Subsequence<T(==)>(b: seq<T>, a: seq<T>)
    decreases |a|
  {
    if b == [] then true
    else if a == [] then false
    else (b[0] == a[0] && Subsequence(b[1..], a[1..])) || Subsequence(b, a[1..])
  }

  /** `corrections.filter(Keep)`. */
  function Clean(corrections: seq<Correction>): (r: seq<Correction>)
    ensures forall k :: 0 <= k < |r| ==> Keep(r[k])
    ensures Subsequence(r, corrections)
    decreases |corrections|
  {
    if corrections == [] then []
    else if Keep(corrections[0]) then [corrections[0]] + Clean(corrections[1..])
    else Clean(corrections[1..])
  }

  /** The filter keeps every passing correction as often as it occurs, and
      no other. */
  lemma {:induction false} CleanCounts(corrections: seq<Correction>, c: Correction)
    ensures multiset(Clean(corrections))[c] == if Keep(c) then multiset(corrections)[c] else 0
    decreases |corrections|
  {
    if corrections != [] {
      CleanCounts(corrections[1..], c);
      assert corrections == [corrections[0]] + corrections[1..];
    }
  }

  /** A correction moved into the document and stamped with its chunk. */
  function Place(chunk: ChunkData, c: Correction): Correction {
    c.(position := c.position + chunk.startPosition, chunkIndex := Some(chunk.index + 1))
  }

  /** `processChunk`, given what the call to `correctChunk` produced. */
  function ProcessChunk(chunk: ChunkData, outcome: Result<CorrectionResponse, string>): (r: CorrectionResponse)
    ensures outcome.Err? ==> r == CorrectionResponse([], ZeroUsage)
    ensures outcome.Ok? ==>
      var kept := Clean(outcome.value.corrections);
      r.usage == outcome.value.usage
      && |r.corrections| == |kept|
      && forall k :: 0 <= k < |kept| ==>
           r.corrections[k].position == kept[k].position + chunk.startPosition
           && r.corrections[k].chunkIndex == Some(chunk.index + 1)
           && r.corrections[k] == kept[k].(position := r.corrections[k].position, chunkIndex := r.corrections[k].chunkIndex)
  {
    match outcome
    case Err(_) => CorrectionResponse([], ZeroUsage)
    case Ok(response) =>
      var kept := Clean(response.corrections);
      CorrectionResponse(seq(|kept|, k requires 0 <= k < |kept| => Place(chunk, kept[k])), response.usage)
  }

  /** Every correction the processor returns changes the text and has a
      replacement that is not blank. */
  lemma ProcessedAreClean(chunk: ChunkData, outcome: Result<CorrectionResponse, string>)
    ensures forall c :: c in ProcessChunk(chunk, outcome).corrections ==>
      c.original != c.correction && !AllWhitespace(c.correction)
  {
    var r := ProcessChunk(chunk, outcome);
    forall c | c in r.corrections
      ensures c.original != c.correction && !AllWhitespace(c.correction)
    {
      var k :| 0 <= k < |r.corrections| && r.corrections[k] == c;
      var kept := Clean(outcome.value.corrections);
      assert Keep(kept[k]);
      TrimEmpty(c.correction);
    }
  }

  /** A chunk corrected by the service never yields a correction longer than
      the configured limit: the filter only removes corrections. */
  lemma ProcessedNeverLong(chunk: ChunkData, engine: Ai.CorrectionEngine, config: Ai.Config)
    ensures var response := Ai.CorrectChunkResult(engine, config, chunk.text, None);
      !HasLongCorrections(ProcessChunk(chunk, Ok(response)).corrections, config.maxCorrectionWords)
  {
    var response := Ai.CorrectChunkResult(engine, config, chunk.text, None);
    Ai.CorrectChunkNeverLong(engine, config, chunk.text, None);
    var r := ProcessChunk(chunk, Ok(response));
    var kept := Clean(response.corrections);
    forall k | 0 <= k < |r.corrections|
      ensures WordCount(r.corrections[k].correction) <= config.maxCorrectionWords
    {
      CleanCounts(response.corrections, kept[k]);
      assert kept[k] in multiset(kept);
      var i :| 0 <= i < |response.corrections| && response.corrections[i] == kept[k];
    }
  }

  // ---------------------------------------------------------------------------
  // verifyCorrectionsInBatches

  function Flatten<T>(groups: seq<seq<T>>): (r: seq<T>)
    decreases |groups|
  {
    if groups == [] then [] else groups[0] + Flatten(groups[1..])
  }

  lemma {:induction false} FlattenSnoc<T>(groups: seq<seq<T>>, last: seq<T>)
    ensures Flatten(groups + [last]) == Flatten(groups) + last
    decreases |groups|
  {
    if groups == [] {
      assert [last][1..] == [];
    } else {
      assert (groups + [last])[1..] == groups[1..] + [last];
      FlattenSnoc(groups[1..], last);
    }
  }

  /** The groups the loop builds: consecutive slices of `size`, the last one
      possibly shorter. */
  function Batches<T>(items: seq<T>, size: nat): seq<seq<T>>
    requires size > 0
    decreases |items|
  {
    if items == [] then []
    else if |items| <= size then [items]
    else [items[..size]] + Batches(items[size..], size)
  }

  /** Concatenating the groups gives back the input. */
  lemma {:induction false} BatchesFlatten<T>(items: seq<T>, size: nat)
    requires size > 0
    ensures Flatten(Batches(items, size)) == items
    decreases |items|
  {
    if items != [] && |items| > size {
      BatchesFlatten(items[size..], size);
      assert items == items[..size] + items[size..];
    }
  }

  /** There are `ceil(|items| / size)` groups: no group for no item, and
      otherwise just enough groups of `size` to hold every item. */
  lemma {:induction false} BatchesCount<T>(items: seq<T>, size: nat)
    requires size > 0
    ensures var n := |Batches(items, size)|;
      (n == 0 <==> items == []) && |items| <= n * size && (n == 0 || (n - 1) * size < |items|)
    decreases |items|
  {
    if items != [] && |items| > size {
      BatchesCount(items[size..], size);
      var m := |Batches(items[size..], size)|;
      assert |Batches(items, size)| == m + 1;
      assert (m + 1) * size == m * size + size;
      assert m * size == (m - 1) * size + size;
    }
  }

  /** Every group but the last has exactly `size` items, the last between 1
      and `size`. */
  lemma {:induction false} BatchesSizes<T>(items: seq<T>, size: nat)
    requires size > 0
    ensures var groups := Batches(items, size);
      (forall j :: 0 <= j < |groups| - 1 ==> |groups[j]| == size)
      && (groups != [] ==> 0 < |groups[|groups| - 1]| <= size)
    decreases |items|
  {
    if items != [] && |items| > size {
      BatchesSizes(items[size..], size);
      var rest := Batches(items[size..], size);
      var groups := Batches(items, size);
      assert groups == [items[..size]] + rest;
      assert rest != [];
      forall j | 0 <= j < |groups| - 1
        ensures |groups[j]| == size
      {
        if j > 0 {
          assert groups[j] == rest[j - 1];
        }
      }
    }
  }

  /** The grouping loop: `slice(i, i + itemsPerCall)` for `i` = 0,
      `itemsPerCall`, 2 * `itemsPerCall`, ... below the length. With a size
      of zero `i` never advances and the source loops forever, so the model
      takes positive sizes only. */
  method Group<T>(items: seq<T>, itemsPerCall: nat) returns (groups: seq<seq<T>>)
    requires itemsPerCall > 0
    ensures groups == Batches(items, itemsPerCall)
  {
    groups := [];
    var i := 0;
    while i < |items|
      invariant (i < |items| && groups + Batches(items[i..], itemsPerCall) == Batches(items, itemsPerCall))
             || (i >= |items| && groups == Batches(items, itemsPerCall))
      decreases |items| - i
    {
      var rest := items[i..];
      if i + itemsPerCall < |items| {
        assert rest[..itemsPerCall] == items[i..i + itemsPerCall];
        assert rest[itemsPerCall..] == items[i + itemsPerCall..];
        assert groups + Batches(rest, itemsPerCall)
          == (groups + [items[i..i + itemsPerCall]]) + Batches(items[i + itemsPerCall..], itemsPerCall);
        groups := groups + [items[i..i + itemsPerCall]];
      } else {
        assert rest != [] && |rest| <= itemsPerCall;
        assert Batches(rest, itemsPerCall) == [rest];
        groups := groups + [rest];
      }
      i := i + itemsPerCall;
    }
  }

  /** Group results that stamp their groups item by item flatten into a
      result that stamps the flattened groups item by item. */
  lemma {:induction false} FlattenStamped(results: seq<seq<Correction>>, groups: seq<seq<Correction>>)
    requires |results| == |groups|
    requires forall j :: 0 <= j < |groups| ==> |results[j]| == |groups[j]|
    requires forall j, i :: 0 <= j < |groups| && 0 <= i < |groups[j]| ==> Ai.Stamped(results[j][i], groups[j][i])
    ensures |Flatten(results)| == |Flatten(groups)|
    ensures forall i :: 0 <= i < |Flatten(groups)| ==> Ai.Stamped(Flatten(results)[i], Flatten(groups)[i])
    decreases |groups|
  {
    if groups != [] {
      FlattenStamped(results[1..], groups[1..]);
      var head, tail := groups[0], Flatten(groups[1..]);
      var rhead, rtail := results[0], Flatten(results[1..]);
      forall i | 0 <= i < |head + tail|
        ensures Ai.Stamped((rhead + rtail)[i], (head + tail)[i])
      {
        if i >= |head| {
          assert (head + tail)[i] == tail[i - |head|];
          assert (rhead + rtail)[i] == rtail[i - |head|];
        } else {
          assert Ai.Stamped(results[0][i], groups[0][i]);
        }
      }
    }
  }

  /** The engine's verification of one group, as a function value. */
  function Verifier(engine: Ai.VerificationEngine, config: Ai.Config): seq<Correction> -> seq<Correction> {
    group => Ai.VerifyResult(engine, config, group)
  }

  /** The result of `verify` on every group, group by group. */
  function VerifyEach(verify: seq<Correction> -> seq<Correction>, groups: seq<seq<Correction>>): (r: seq<seq<Correction>>)
    ensures |r| == |groups|
    decreases |groups|
  {
    if groups == [] then []
    else VerifyEach(verify, groups[..|groups| - 1]) + [verify(groups[|groups| - 1])]
  }

  /** Result `j` is the verification of group `j`. */
  lemma {:induction false} VerifyEachIndex(verify: seq<Correction> -> seq<Correction>, groups: seq<seq<Correction>>, j: nat)
    requires j < |groups|
    ensures VerifyEach(verify, groups)[j] == verify(groups[j])
    decreases |groups|
  {
    if j < |groups| - 1 {
      var init := groups[..|groups| - 1];
      VerifyEachIndex(verify, init, j);
      assert init[j] == groups[j];
    }
  }

  /** What `verifyCorrectionsInBatches` returns: the verification results of
      the groups, in group order. */
  function VerifiedInBatches(engine: Ai.VerificationEngine, config: Ai.Config, corrections: seq<Correction>, itemsPerCall: nat): seq<Correction>
    requires itemsPerCall > 0
  {
    if |corrections| == 0 then []
    else Flatten(VerifyEach(Verifier(engine, config), Batches(corrections, itemsPerCall)))
  }

  /** Batched verification returns the corrections in their order, each with
      every field but `verified` unchanged and `verified` set. */
  lemma VerifiedInBatchesStamps(engine: Ai.VerificationEngine, config: Ai.Config, corrections: seq<Correction>, itemsPerCall: nat)
    requires itemsPerCall > 0
    ensures var r := VerifiedInBatches(engine, config, corrections, itemsPerCall);
      |r| == |corrections| && forall i :: 0 <= i < |corrections| ==> Ai.Stamped(r[i], corrections[i])
  {
    if |corrections| > 0 {
      var groups := Batches(corrections, itemsPerCall);
      var results := VerifyEach(Verifier(engine, config), groups);
      forall j | 0 <= j < |groups|
        ensures |results[j]| == |groups[j]|
        ensures forall i :: 0 <= i < |groups[j]| ==> Ai.Stamped(results[j][i], groups[j][i])
      {
        VerifyEachIndex(Verifier(engine, config), groups, j);
        Ai.VerifyResultStamps(engine, config, groups[j]);
      }
      FlattenStamped(results, groups);
      BatchesFlatten(corrections, itemsPerCall);
    }
  }

  /** `verifyCorrectionsInBatches`; the loop over the groups stands for the
      bounded pool, which stores each group's result at the group's index. */
  method VerifyCorrectionsInBatches(engine: Ai.VerificationEngine, config: Ai.Config, corrections: seq<Correction>, itemsPerCall: nat)
    returns (verified: seq<Correction>)
    requires itemsPerCall > 0
    ensures verified == VerifiedInBatches(engine, config, corrections, itemsPerCall)
    ensures |verified| == |corrections|
    ensures forall i :: 0 <= i < |corrections| ==> Ai.Stamped(verified[i], corrections[i])
  {
    if |corrections| == 0 {
      return [];
    }
    var groups := Group(corrections, itemsPerCall);
    var results: seq<seq<Correction>> := [];
    for j := 0 to |groups|
      invariant results == VerifyEach(Verifier(engine, config), groups[..j])
    {
      var r := Ai.VerifyCorrections(engine, config, groups[j]);
      assert groups[..j + 1][..j] == groups[..j];
      results := results + [r];
    }
    assert groups[..|groups|] == groups;
    verified := Flatten(results);
    VerifiedInBatchesStamps(engine, config, corrections, itemsPerCall);
  }
}

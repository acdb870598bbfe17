/**
 * The chunker of the document service (src/modules/document/document.service.ts):
 * the manuscript is split into paragraphs on runs of blank lines, whole
 * paragraphs are packed into windows under a character budget, every window
 * after the first is seeded with the last sentences of the one before, and
 * each window is reported with its position in the running sum of window
 * lengths.
 *
 * `Windows` is the specification: it describes each window by its seed and
 * the paragraphs appended to it. `SplitIntoChunks` is the source's loop,
 * proved to produce exactly those windows with the source's position
 * bookkeeping.
 */
module Document {
  import opened Text
  import opened Types

  const MaxTokensPerChunk: nat := 1000
  const CharsPerToken: nat := 4
  const OverlapSentences: nat := 3
  const MaxCharsPerChunk: nat := MaxTokensPerChunk * CharsPerToken

  /** `Math.ceil(|s| / 4)`: a fixed-ratio estimate, not a tokenizer. */
  function EstimateTokens(s: string): (n: nat)
    ensures CharsPerToken * n >= |s|
    ensures CharsPerToken * n < |s| + CharsPerToken
  {
    (|s| + CharsPerToken - 1) / CharsPerToken
  }

  function SplitParagraphs(text: string): seq<string> {
    Split(BlankLines, text)
  }

  function SplitSentences(text: string): seq<string> {
    Split(SentenceEnd, text)
  }

  // ---------------------------------------------------------------------------
  // overlap

  /** The overlap seed: the text itself when it has at most `count` sentences,
      otherwise its last `count` sentences joined by ". ", with a final "."
      when the text ends with one. `slice(-0)` keeps every sentence, so a
      `count` of 0 joins them all. */
  function ExtractLastSentences(text: string, count: nat): string {
    var sentences := SplitSentences(text);
    if |sentences| <= count then text
    else
      var last := if count == 0 then sentences else sentences[|sentences| - count..];
      Join(last, ". ") + (if EndsWith(text, ".") then "." else "")
  }

  function Repeat(s: string, n: nat): (r: seq<string>)
    ensures |r| == n
    ensures forall i :: 0 <= i < n ==> r[i] == s
  {
    if n == 0 then [] else [s] + Repeat(s, n - 1)
  }

  lemma {:induction false} JoinIsInterleave(parts: seq<string>, sep: string)
    requires |parts| >= 1
    ensures Join(parts, sep) == Interleave(parts, Repeat(sep, |parts| - 1))
    decreases |parts|
  {
    if |parts| > 1 {
      JoinIsInterleave(parts[1..], sep);
      assert Repeat(sep, |parts| - 1)[1..] == Repeat(sep, |parts| - 2);
    }
  }

  lemma {:induction false} InterleaveSplitAt(segments: seq<string>, separators: seq<string>, j: nat)
    requires |segments| == |separators| + 1
    requires 0 < j < |segments|
    ensures Interleave(segments, separators)
      == Interleave(segments[..j], separators[..j - 1]) + separators[j - 1]
         + Interleave(segments[j..], separators[j..])
    decreases j
  {
    if j > 1 {
      InterleaveSplitAt(segments[1..], separators[1..], j - 1);
      assert segments[1..][..j - 1] == segments[..j][1..];
      assert separators[1..][..j - 2] == separators[..j - 1][1..];
      assert segments[1..][j - 1..] == segments[j..];
      assert separators[1..][j - 1..] == separators[j..];
    } else {
      assert segments[..1][0] == segments[0];
      assert segments[1..] == segments[j..];
    }
  }

  /** When the text has more than `count` sentences, the overlap is the text's
      own tail from its `count`-th last sentence on, with each sentence break
      normalised to ". " and a single final "." kept if the text ends with one. */
  lemma OverlapIsNormalisedTail(text: string, count: nat)
    requires 1 <= count < |SplitSentences(text)|
    ensures var sentences := SplitSentences(text);
      var breaks := Separators(SentenceEnd, text);
      var j := |sentences| - count;
      EndsWith(text, Interleave(sentences[j..], breaks[j..]))
      && ExtractLastSentences(text, count)
         == Interleave(sentences[j..], Repeat(". ", count - 1)) + (if EndsWith(text, ".") then "." else "")
  {
    var sentences := SplitSentences(text);
    var breaks := Separators(SentenceEnd, text);
    var j := |sentences| - count;
    SplitReconstructs(SentenceEnd, text);
    InterleaveSplitAt(sentences, breaks, j);
    var head := Interleave(sentences[..j], breaks[..j - 1]) + breaks[j - 1];
    var tail := Interleave(sentences[j..], breaks[j..]);
    assert text == head + tail;
    assert text[|text| - |tail|..] == tail;
    JoinIsInterleave(sentences[j..], ". ");
  }

  lemma JoinAtLeastSeparator(parts: seq<string>, sep: string)
    requires |parts| >= 2
    ensures |Join(parts, sep)| >= |sep|
  {
  }

  /** The seed taken from a non-empty window is never empty (for the source's
      count of 3; with a count of 1 a text such as "a. " would give ""). */
  lemma OverlapNonEmpty(text: string, count: nat)
    requires text != [] && count >= 2
    ensures ExtractLastSentences(text, count) != []
  {
    var sentences := SplitSentences(text);
    if |sentences| > count {
      JoinAtLeastSeparator(sentences[|sentences| - count..], ". ");
    }
  }

  // ---------------------------------------------------------------------------
  // windows: the specification of the chunker

  /** A chunk before trimming: the seed it was started with and the whole
      paragraphs appended to it, in order. */
  datatype Window = Window(seed: string, parts: seq<string>)

  /** `current += (current ? '\n\n' : '') + paragraph`. */
  function Append(current: string, paragraph: string): string {
    current + (if current != [] then "\n\n" else "") + paragraph
  }

  function Compose(seed: string, parts: seq<string>): string
    decreases |parts|
  {
    if parts == [] then seed else Append(Compose(seed, parts[..|parts| - 1]), parts[|parts| - 1])
  }

  function WindowText(w: Window): string {
    Compose(w.seed, w.parts)
  }

  /** The source's test for closing the pending chunk before `paragraph`. It
      ignores the "\n\n" separator and the seed still to be prepended, so it
      is not a hard bound on chunk length. */
  predicate Flushes(current: string, paragraph: string) {
    |current| + |paragraph| > MaxCharsPerChunk && |current| > 0
  }

  /** The closed windows and the one being filled. */
  datatype Pending = Pending(done: seq<Window>, open: Window)

  const Start := Pending([], Window("", []))

  function Step(st: Pending, paragraph: string): Pending {
    var current := WindowText(st.open);
    if Flushes(current, paragraph) then
      Pending(st.done + [st.open], Window(ExtractLastSentences(current, OverlapSentences), [paragraph]))
    else
      Pending(st.done, Window(st.open.seed, st.open.parts + [paragraph]))
  }

  function Consume(paragraphs: seq<string>): Pending
    decreases |paragraphs|
  {
    if paragraphs == [] then Start
    else Step(Consume(paragraphs[..|paragraphs| - 1]), paragraphs[|paragraphs| - 1])
  }

  /** The windows the chunker emits for a paragraph sequence: the last one
      only when it is not empty. */
  function Windows(paragraphs: seq<string>): seq<Window> {
    var st := Consume(paragraphs);
    if WindowText(st.open) != [] then st.done + [st.open] else st.done
  }

  function AllParts(ws: seq<Window>): seq<string>
    decreases |ws|
  {
    if ws == [] then [] else AllParts(ws[..|ws| - 1]) + ws[|ws| - 1].parts
  }

  /** `next` starts with the last sentences of the untrimmed `prev`. */
  ghost predicate SeedsNext(prev: Window, next: Window) {
    next.seed == ExtractLastSentences(WindowText(prev), OverlapSentences)
  }

  /** `prev` was closed by the paragraph that opens `next`, which did not fit. */
  ghost predicate ClosesBefore(prev: Window, next: Window) {
    next.parts != [] && Flushes(WindowText(prev), next.parts[0])
  }

  /** Every paragraph of `w` after its first one fitted when it was added. */
  ghost predicate FitsWhileFilling(w: Window) {
    forall j :: 1 <= j < |w.parts| ==> !Flushes(Compose(w.seed, w.parts[..j]), w.parts[j])
  }

  /** The first window starts empty; every later one starts with the last
      sentences of the one before. */
  ghost predicate SeededByPredecessor(ws: seq<Window>) {
    (|ws| > 0 ==> ws[0].seed == "")
    && forall k :: 0 <= k < |ws| - 1 ==> SeedsNext(ws[k], ws[k + 1])
  }

  /** A window is closed only by a paragraph that did not fit: that paragraph
      opens the next window. */
  ghost predicate ClosedOnOverflow(ws: seq<Window>) {
    forall k :: 0 <= k < |ws| - 1 ==> ClosesBefore(ws[k], ws[k + 1])
  }

  ghost predicate FilledWhileFitting(ws: seq<Window>) {
    forall k :: 0 <= k < |ws| ==> FitsWhileFilling(ws[k])
  }

  ghost predicate NonEmptyTexts(ws: seq<Window>) {
    forall k :: 0 <= k < |ws| ==> WindowText(ws[k]) != []
  }

  ghost predicate Consistent(paragraphs: seq<string>, st: Pending) {
    var all := st.done + [st.open];
    AllParts(all) == paragraphs
    && NonEmptyTexts(st.done)
    && SeededByPredecessor(all)
    && ClosedOnOverflow(all)
    && FilledWhileFitting(all)
  }

  lemma ComposeSnoc(seed: string, parts: seq<string>, p: string)
    ensures Compose(seed, parts + [p]) == Append(Compose(seed, parts), p)
  {
    assert (parts + [p])[..|parts|] == parts;
  }

  /** A window's text is empty exactly when its seed and all its paragraphs are. */
  lemma {:induction false} ComposeEmpty(seed: string, parts: seq<string>)
    ensures Compose(seed, parts) == [] <==> seed == [] && forall i :: 0 <= i < |parts| ==> parts[i] == []
    decreases |parts|
  {
    if parts != [] {
      var init := parts[..|parts| - 1];
      ComposeEmpty(seed, init);
      assert (forall i :: 0 <= i < |parts| ==> parts[i] == [])
        <==> (forall i :: 0 <= i < |init| ==> init[i] == []) && parts[|parts| - 1] == [];
    }
  }

  lemma AllPartsSnoc(ws: seq<Window>, w: Window)
    ensures AllParts(ws + [w]) == AllParts(ws) + w.parts
  {
    assert (ws + [w])[..|ws|] == ws;
  }

  lemma SeededSnoc(ws: seq<Window>, w: Window)
    requires SeededByPredecessor(ws) && ws != [] && SeedsNext(ws[|ws| - 1], w)
    ensures SeededByPredecessor(ws + [w])
  {
    var ws' := ws + [w];
    forall k | 0 <= k < |ws'| - 1
      ensures SeedsNext(ws'[k], ws'[k + 1])
    {
      assert ws'[k] == ws[k];
      if k + 1 < |ws| {
        assert ws'[k + 1] == ws[k + 1];
      }
    }
  }

  lemma ClosedSnoc(ws: seq<Window>, w: Window)
    requires ClosedOnOverflow(ws) && ws != [] && ClosesBefore(ws[|ws| - 1], w)
    ensures ClosedOnOverflow(ws + [w])
  {
    var ws' := ws + [w];
    forall k | 0 <= k < |ws'| - 1
      ensures ClosesBefore(ws'[k], ws'[k + 1])
    {
      assert ws'[k] == ws[k];
      if k + 1 < |ws| {
        assert ws'[k + 1] == ws[k + 1];
      }
    }
  }

  lemma FilledSnoc(ws: seq<Window>, w: Window)
    requires FilledWhileFitting(ws) && FitsWhileFilling(w)
    ensures FilledWhileFitting(ws + [w])
  {
    var ws' := ws + [w];
    forall k | 0 <= k < |ws'|
      ensures FitsWhileFilling(ws'[k])
    {
      if k < |ws| {
        assert ws'[k] == ws[k];
      }
    }
  }

  /** Growing the open window by a paragraph that fits keeps its own rule. */
  lemma FitsGrow(w: Window, p: string)
    requires FitsWhileFilling(w)
    requires !Flushes(WindowText(w), p)
    ensures FitsWhileFilling(Window(w.seed, w.parts + [p]))
  {
    var parts := w.parts + [p];
    forall j | 1 <= j < |parts|
      ensures !Flushes(Compose(w.seed, parts[..j]), parts[j])
    {
      if j == |w.parts| {
        assert parts[..j] == w.parts;
      } else {
        assert parts[..j] == w.parts[..j];
        assert parts[j] == w.parts[j];
      }
    }
  }

  lemma StepFlushConsistent(paragraphs: seq<string>, st: Pending, p: string)
    requires Consistent(paragraphs, st)
    requires Flushes(WindowText(st.open), p)
    ensures Consistent(paragraphs + [p], Step(st, p))
  {
    var all := st.done + [st.open];
    var seeded := Window(ExtractLastSentences(WindowText(st.open), OverlapSentences), [p]);
    assert Step(st, p) == Pending(all, seeded);
    AllPartsSnoc(all, seeded);
    assert NonEmptyTexts(all) by {
      forall k | 0 <= k < |all|
        ensures WindowText(all[k]) != []
      {
        if k < |st.done| {
          assert all[k] == st.done[k];
        }
      }
    }
    assert all[|all| - 1] == st.open;
    SeededSnoc(all, seeded);
    ClosedSnoc(all, seeded);
    FilledSnoc(all, seeded);
  }

  lemma StepFillConsistent(paragraphs: seq<string>, st: Pending, p: string)
    requires Consistent(paragraphs, st)
    requires !Flushes(WindowText(st.open), p)
    ensures Consistent(paragraphs + [p], Step(st, p))
  {
    var all := st.done + [st.open];
    var grown := Window(st.open.seed, st.open.parts + [p]);
    assert Step(st, p) == Pending(st.done, grown);
    AllPartsSnoc(st.done, st.open);
    AllPartsSnoc(st.done, grown);
    assert all[|st.done|] == st.open;
    assert forall k :: 0 <= k < |st.done| ==> all[k] == st.done[k];
    assert FilledWhileFitting(st.done);
    FitsGrow(st.open, p);
    FilledSnoc(st.done, grown);
    if st.done == [] {
      assert SeededByPredecessor([grown]);
    } else {
      assert SeededByPredecessor(st.done);
      assert ClosedOnOverflow(st.done);
      assert SeedsNext(st.done[|st.done| - 1], grown);
      assert ClosesBefore(st.done[|st.done| - 1], grown);
      SeededSnoc(st.done, grown);
      ClosedSnoc(st.done, grown);
    }
  }

  lemma {:induction false} ConsumeConsistent(paragraphs: seq<string>)
    ensures Consistent(paragraphs, Consume(paragraphs))
    decreases |paragraphs|
  {
    if paragraphs == [] {
      assert AllParts([Start.open]) == [] by {
        AllPartsSnoc([], Start.open);
      }
    } else {
      var init := paragraphs[..|paragraphs| - 1];
      var p := paragraphs[|paragraphs| - 1];
      ConsumeConsistent(init);
      assert init + [p] == paragraphs;
      if Flushes(WindowText(Consume(init).open), p) {
        StepFlushConsistent(init, Consume(init), p);
      } else {
        StepFillConsistent(init, Consume(init), p);
      }
    }
  }

  /** The emitted windows are the consumed ones, less the open one when it is empty. */
  lemma WindowsArePrefix(paragraphs: seq<string>)
    ensures var st := Consume(paragraphs);
      Windows(paragraphs) == (st.done + [st.open])[..|Windows(paragraphs)|]
  {
    var st := Consume(paragraphs);
    assert (st.done + [st.open])[..|st.done|] == st.done;
  }

  /** The first window starts empty and each later one is seeded with
      `ExtractLastSentences` of the untrimmed window before it. */
  lemma WindowsSeeded(paragraphs: seq<string>)
    ensures SeededByPredecessor(Windows(paragraphs))
  {
    ConsumeConsistent(paragraphs);
    WindowsArePrefix(paragraphs);
  }

  /** The flush rule: a window is closed exactly when the next paragraph
      would take it past the budget and it is not empty; the paragraph that
      closed it opens the next window, and every other paragraph fitted. */
  lemma WindowsFlushRule(paragraphs: seq<string>)
    ensures ClosedOnOverflow(Windows(paragraphs))
    ensures FilledWhileFitting(Windows(paragraphs))
  {
    ConsumeConsistent(paragraphs);
    WindowsArePrefix(paragraphs);
  }

  /** No emitted window is empty. */
  lemma WindowsNonEmpty(paragraphs: seq<string>)
    ensures NonEmptyTexts(Windows(paragraphs))
  {
    ConsumeConsistent(paragraphs);
  }

  /** Paragraphs are never split or lost: the windows' paragraphs, in order,
      are the input paragraphs, unless every paragraph is empty, which is
      exactly when no window is emitted. */
  lemma WindowsCoverParagraphs(paragraphs: seq<string>)
    ensures Windows(paragraphs) != [] ==> AllParts(Windows(paragraphs)) == paragraphs
    ensures Windows(paragraphs) == [] <==> forall i :: 0 <= i < |paragraphs| ==> paragraphs[i] == []
  {
    var st := Consume(paragraphs);
    ConsumeConsistent(paragraphs);
    var all := st.done + [st.open];
    ComposeEmpty(st.open.seed, st.open.parts);
    if st.done != [] {
      var last := st.done[|st.done| - 1];
      assert all[|st.done| - 1] == last && all[|st.done|] == st.open;
      assert SeedsNext(last, st.open);
      OverlapNonEmpty(WindowText(last), OverlapSentences);
    }
    if forall i :: 0 <= i < |paragraphs| ==> paragraphs[i] == [] {
      ConsumeAllEmpty(paragraphs);
      ComposeEmpty("", paragraphs);
    }
    if WindowText(st.open) == [] {
      AllPartsSnoc([], st.open);
    }
  }

  lemma {:induction false} ConsumeAllEmpty(paragraphs: seq<string>)
    requires forall i :: 0 <= i < |paragraphs| ==> paragraphs[i] == []
    ensures Consume(paragraphs) == Pending([], Window("", paragraphs))
    decreases |paragraphs|
  {
    if paragraphs != [] {
      var init := paragraphs[..|paragraphs| - 1];
      ConsumeAllEmpty(init);
      ComposeEmpty("", init);
      assert init + [paragraphs[|paragraphs| - 1]] == paragraphs;
    }
  }

  // ---------------------------------------------------------------------------
  // the chunker itself

  /** Chunk `c` reports window `w` as the `k`-th chunk. */
  predicate Describes(c: TextChunk, k: nat, w: Window) {
    c.index == k
    && c.text == Trim(WindowText(w))
    && c.endPosition == c.startPosition + |WindowText(w)|
  }

  predicate Adjacent(c: TextChunk, d: TextChunk) {
    d.startPosition == c.endPosition
  }

  /** `chunks` reports the windows `ws` one for one, laid end to end from 0. */
  ghost predicate Reports(chunks: seq<TextChunk>, ws: seq<Window>) {
    |chunks| == |ws|
    && (forall k :: 0 <= k < |chunks| ==> Describes(chunks[k], k, ws[k]))
    && (|chunks| > 0 ==> chunks[0].startPosition == 0)
    && (forall k :: 0 <= k < |chunks| - 1 ==> Adjacent(chunks[k], chunks[k + 1]))
  }

  lemma ReportsSnoc(chunks: seq<TextChunk>, ws: seq<Window>, c: TextChunk, w: Window)
    requires Reports(chunks, ws)
    requires Describes(c, |ws|, w)
    requires c.startPosition == if chunks == [] then 0 else chunks[|chunks| - 1].endPosition
    ensures Reports(chunks + [c], ws + [w])
  {
    var chunks' := chunks + [c];
    var ws' := ws + [w];
    forall k | 0 <= k < |chunks'|
      ensures Describes(chunks'[k], k, ws'[k])
    {
      if k < |chunks| {
        assert chunks'[k] == chunks[k] && ws'[k] == ws[k];
      }
    }
    forall k | 0 <= k < |chunks'| - 1
      ensures Adjacent(chunks'[k], chunks'[k + 1])
    {
      assert chunks'[k] == chunks[k];
      if k + 1 < |chunks| {
        assert chunks'[k + 1] == chunks[k + 1];
      }
    }
  }

  /** `Consume` of the first `i` paragraphs, by recursion on `i`. */
  function ConsumePrefix(paragraphs: seq<string>, i: nat): Pending
    requires i <= |paragraphs|
  {
    if i == 0 then Start else Step(ConsumePrefix(paragraphs, i - 1), paragraphs[i - 1])
  }

  lemma {:induction false} ConsumePrefixIsConsume(paragraphs: seq<string>, i: nat)
    requires i <= |paragraphs|
    ensures ConsumePrefix(paragraphs, i) == Consume(paragraphs[..i])
  {
    if i > 0 {
      ConsumePrefixIsConsume(paragraphs, i - 1);
      assert paragraphs[..i][..i - 1] == paragraphs[..i - 1];
    }
  }

  /** One step of the specification, in the terms of the source's variables. */
  lemma StepShape(st: Pending, p: string)
    ensures var current := WindowText(st.open);
      var next := Step(st, p);
      if Flushes(current, p) then
        next.done == st.done + [st.open]
        && WindowText(next.open) == Append(ExtractLastSentences(current, OverlapSentences), p)
      else
        next.done == st.done && WindowText(next.open) == Append(current, p)
  {
    var current := WindowText(st.open);
    if Flushes(current, p) {
      ComposeSnoc(ExtractLastSentences(current, OverlapSentences), [], p);
    } else {
      ComposeSnoc(st.open.seed, st.open.parts, p);
    }
  }

  /** The final state of the chunker, read as windows: the closed ones and,
      when its text is not empty, the open one. */
  lemma ConsumedWindows(paragraphs: seq<string>)
    ensures var st := ConsumePrefix(paragraphs, |paragraphs|);
      Windows(paragraphs) == if WindowText(st.open) != [] then st.done + [st.open] else st.done
  {
    ConsumePrefixIsConsume(paragraphs, |paragraphs|);
    assert paragraphs[..|paragraphs|] == paragraphs;
  }

  /** The chunker's variables against a state `st`: the pending chunk is the
      open window's text and the pushed chunks report the closed windows,
      numbered and placed end to end. */
  ghost predicate Tracks(st: Pending, chunks: seq<TextChunk>, current: string, position: nat, index: nat) {
    current == WindowText(st.open)
    && index == |chunks|
    && Reports(chunks, st.done)
    && position == if chunks == [] then 0 else chunks[|chunks| - 1].endPosition
  }

  /** Pushing the pending chunk when it is not empty reports the open window
      after the closed ones. */
  lemma TracksFinal(st: Pending, chunks: seq<TextChunk>, current: string, position: nat, index: nat)
    requires Tracks(st, chunks, current, position, index)
    ensures Reports(
      if |current| > 0 then chunks + [TextChunk(index, Trim(current), position, position + |current|)] else chunks,
      if WindowText(st.open) != [] then st.done + [st.open] else st.done)
  {
    if |current| > 0 {
      ReportsSnoc(chunks, st.done, TextChunk(index, Trim(current), position, position + |current|), st.open);
    }
  }

  /** `Tracks` after the first `i` paragraphs. */
  ghost predicate Scanned(paragraphs: seq<string>, i: nat, chunks: seq<TextChunk>, current: string, position: nat, index: nat)
    requires i <= |paragraphs|
  {
    Tracks(ConsumePrefix(paragraphs, i), chunks, current, position, index)
  }

  /** One loop step: either the pending chunk is pushed and reseeded with
      its last sentences before the paragraph is appended, or the paragraph
      is appended to it. */
  lemma ScanStep(paragraphs: seq<string>, i: nat, chunks: seq<TextChunk>, current: string, position: nat, index: nat,
                 chunks': seq<TextChunk>, current': string, position': nat, index': nat)
    requires i < |paragraphs|
    requires Scanned(paragraphs, i, chunks, current, position, index)
    requires if Flushes(current, paragraphs[i]) then
        chunks' == chunks + [TextChunk(index, Trim(current), position, position + |current|)]
        && current' == Append(ExtractLastSentences(current, OverlapSentences), paragraphs[i])
        && position' == position + |current| && index' == index + 1
      else
        chunks' == chunks && current' == Append(current, paragraphs[i]) && position' == position && index' == index
    ensures Scanned(paragraphs, i + 1, chunks', current', position', index')
  {
    var st := ConsumePrefix(paragraphs, i);
    StepShape(st, paragraphs[i]);
    if Flushes(current, paragraphs[i]) {
      ReportsSnoc(chunks, st.done, TextChunk(index, Trim(current), position, position + |current|), st.open);
    }
  }

  /** After the last paragraph, the pushed chunks and the pending one when
      it is not empty report the windows of the paragraphs. */
  lemma ScanFinish(paragraphs: seq<string>, chunks: seq<TextChunk>, current: string, position: nat, index: nat)
    requires Scanned(paragraphs, |paragraphs|, chunks, current, position, index)
    ensures var all := if |current| > 0 then chunks + [TextChunk(index, Trim(current), position, position + |current|)] else chunks;
      Reports(all, Windows(paragraphs))
      && (all == [] <==> forall i :: 0 <= i < |paragraphs| ==> paragraphs[i] == [])
  {
    TracksFinal(ConsumePrefix(paragraphs, |paragraphs|), chunks, current, position, index);
    ConsumedWindows(paragraphs);
    WindowsCoverParagraphs(paragraphs);
  }

  /** One iteration of the chunker's loop: push the pending chunk and
      reseed it with its last sentences when the paragraph does not fit,
      then append the paragraph. */
  method AddParagraph(ghost paragraphs: seq<string>, ghost i: nat, paragraph: string,
                      chunks: seq<TextChunk>, currentChunk: string, currentPosition: nat, chunkIndex: nat)
    returns (chunks': seq<TextChunk>, currentChunk': string, currentPosition': nat, chunkIndex': nat)
    requires i < |paragraphs| && paragraph == paragraphs[i]
    requires Scanned(paragraphs, i, chunks, currentChunk, currentPosition, chunkIndex)
    ensures Scanned(paragraphs, i + 1, chunks', currentChunk', currentPosition', chunkIndex')
  {
    chunks', currentChunk', currentPosition', chunkIndex' := chunks, currentChunk, currentPosition, chunkIndex;
    if |currentChunk'| + |paragraph| > MaxCharsPerChunk && |currentChunk'| > 0 {
      chunks' := chunks' + [TextChunk(chunkIndex', Trim(currentChunk'), currentPosition', currentPosition' + |currentChunk'|)];
      var previousOverlap := ExtractLastSentences(currentChunk', OverlapSentences);
      chunkIndex' := chunkIndex' + 1;
      currentPosition' := currentPosition' + |currentChunk'|;
      currentChunk' := previousOverlap;
    }
    currentChunk' := currentChunk' + (if currentChunk' != [] then "\n\n" else "") + paragraph;
    ScanStep(paragraphs, i, chunks, currentChunk, currentPosition, chunkIndex, chunks', currentChunk', currentPosition', chunkIndex');
  }

  /** The loop of `splitIntoChunks` over the paragraphs: chunk `k` is window
      `k` of the paragraphs, trimmed, numbered `k`, and placed right after
      the untrimmed chunk before it. */
  method ChunkParagraphs(paragraphs: seq<string>) returns (chunks: seq<TextChunk>)
    ensures Reports(chunks, Windows(paragraphs))
    ensures chunks == [] <==> forall i :: 0 <= i < |paragraphs| ==> paragraphs[i] == []
  {
    chunks := [];
    var currentChunk := "";
    var currentPosition: nat := 0;
    var chunkIndex: nat := 0;

    for i := 0 to |paragraphs|
      invariant Scanned(paragraphs, i, chunks, currentChunk, currentPosition, chunkIndex)
    {
      chunks, currentChunk, currentPosition, chunkIndex :=
        AddParagraph(paragraphs, i, paragraphs[i], chunks, currentChunk, currentPosition, chunkIndex);
    }

    ScanFinish(paragraphs, chunks, currentChunk, currentPosition, chunkIndex);
    if |currentChunk| > 0 {
      chunks := chunks + [TextChunk(chunkIndex, Trim(currentChunk), currentPosition, currentPosition + |currentChunk|)];
    }
  }

  /** `splitIntoChunks`: the text is split into paragraphs on runs of blank
      lines, which are then packed into chunks. */
  method SplitIntoChunks(text: string) returns (chunks: seq<TextChunk>)
    ensures Reports(chunks, Windows(SplitParagraphs(text)))
    ensures var paragraphs := SplitParagraphs(text);
      chunks == [] <==> forall i :: 0 <= i < |paragraphs| ==> paragraphs[i] == []
  {
    var paragraphs := SplitParagraphs(text);
    chunks := ChunkParagraphs(paragraphs);
  }
}

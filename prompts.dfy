/**
 * The correction prompt (src/modules/ai/prompts/correction-prompts.ts): the
 * system prompt is the fixed rules, then the author's style guide when one
 * is given, then the feedback about a rejected earlier reply when there is
 * one, then the instruction describing the JSON reply; and a fixed
 * one-sentence example exchange is shown to the engine before the chunk.
 */
module CorrectionPrompts {
  import opened Wrappers
  import opened Types
  import opened Text

  const RulesTemplate: string :=
    "Éditeur littéraire expert. Corrige strictement l'orthographe, la grammaire.\n"
    + "\n"
    + "RÈGLES CRITIQUES:\n"
    + "1. NE JAMAIS réécrire ou changer le style de l'auteur\n"
    + "2. Si une phrase est lourde mais correcte, ne touche à rien\n"
    + "3. Ne corrige que les fautes objectives\n"
    + "4. Ignore : ponctuation non grammaticale, style, anglicismes, majuscules, temps narratifs, noms propres.\n"
    + "5. Pour chaque faute, renvoie une fenêtre entre 3 et 6 mots EXACTEMENT telle qu'elle apparaît dans la phrase originale (sans reformulation), et sa correction.\n"
    + "6. Si doute, ne corrige pas"

  const StyleHeader: string := "\n\nStyle auteur: "

  const FeedbackHeader: string := "\n\nURGENT - CORRECTION PRÉCÉDENTE REJETÉE :\n"

  const JsonInstruction: string := "\n\nRenvoie un JSON:\n" + JsonRecord

  const JsonRecord: string :=
    "{\"corrections\":[{\"position\":0,\"original\":\"texte erroné\",\"correction\":\"texte corrigé\",\"type\":\"orthographe|grammaire|ponctuation|syntaxe\",\"explication\":\"raison\"}]}"

  /** JavaScript truthiness of an optional string: present and non-empty. */
  predicate Truthy(o: Option<string>) {
    o.Some? && o.value != ""
  }

  function StyleSection(styleGuide: Option<string>): string {
    if Truthy(styleGuide) then StyleHeader + styleGuide.value else ""
  }

  function FeedbackSection(retryFeedback: Option<string>): string {
    if Truthy(retryFeedback) then FeedbackHeader + retryFeedback.value else ""
  }

  /** The prompt `buildCorrectionSystemPrompt` returns. */
  function SystemPrompt(styleGuide: Option<string>, retryFeedback: Option<string>): string {
    RulesTemplate + StyleSection(styleGuide) + FeedbackSection(retryFeedback) + JsonInstruction
  }

  /** `buildCorrectionSystemPrompt`: the prompt is built by appending to a
      local variable, section by section. */
  method BuildCorrectionSystemPrompt(styleGuide: Option<string>, retryFeedback: Option<string>) returns (prompt: string)
    ensures prompt == SystemPrompt(styleGuide, retryFeedback)
  {
    prompt := RulesTemplate;
    if styleGuide.Some? && styleGuide.value != "" {
      prompt := prompt + (StyleHeader + styleGuide.value);
    } else {
      AppendEmpty(prompt);
    }
    if retryFeedback.Some? && retryFeedback.value != "" {
      prompt := prompt + (FeedbackHeader + retryFeedback.value);
    } else {
      AppendEmpty(prompt);
    }
    prompt := prompt + JsonInstruction;
  }

  // Facts about concatenations of arbitrary strings, stated in the shapes the
  // prompt takes, so that the long constants are never taken apart.

  lemma ConcatFrame(a: string, b: string, c: string, d: string)
    ensures StartsWith(a + b + c + d, a) && EndsWith(a + b + c + d, d)
    ensures EndsWith(a + b + c + d, c + d)
    ensures (a + b + c + d)[|a|..] == b + c + d
  {
    assert (a + b + c + d)[..|a|] == a;
    assert (a + b + c + d)[|a + b + c|..] == d;
    assert (a + b + c + d)[|a + b|..] == c + d;
    assert (a + b + c + d)[|a|..] == b + c + d;
  }

  lemma ThirdChar(a: string, b: string, c: string)
    requires |a| >= 3
    ensures ("" + a + b + c)[2] == a[2]
  {
  }

  lemma AppendEmpty(a: string)
    ensures a + "" == a
  {
  }

  lemma StartsWithFirst(a: string, b: string, c: string)
    ensures StartsWith(a + b + c, a)
  {
    assert (a + b + c)[..|a|] == a;
  }

  lemma MiddleDetermined(a: string, b1: string, b2: string, d: string)
    requires a + b1 + d == a + b2 + d
    ensures b1 == b2
  {
    var s := a + b1 + d;
    assert |b1| == |b2|;
    assert b1 == s[|a|..|a| + |b1|];
    assert b2 == (a + b2 + d)[|a|..|a| + |b2|];
  }

  lemma TailDetermined(h: string, v1: string, v2: string)
    requires h + v1 == h + v2
    ensures v1 == v2
  {
    assert v1 == (h + v1)[|h|..];
    assert v2 == (h + v2)[|h|..];
  }

  /** Every prompt starts with the rules and ends with the JSON instruction. */
  lemma PromptFrame(styleGuide: Option<string>, retryFeedback: Option<string>)
    ensures var p := SystemPrompt(styleGuide, retryFeedback);
      StartsWith(p, RulesTemplate) && EndsWith(p, JsonInstruction)
  {
    ConcatFrame(RulesTemplate, StyleSection(styleGuide), FeedbackSection(retryFeedback), JsonInstruction);
  }

  /** What follows the rules starts with the style header exactly when a
      style guide is given, and then carries the guide itself. */
  lemma PromptStyle(styleGuide: Option<string>, retryFeedback: Option<string>)
    ensures var rest := SystemPrompt(styleGuide, retryFeedback)[|RulesTemplate|..];
      (StartsWith(rest, StyleHeader) <==> Truthy(styleGuide))
      && (Truthy(styleGuide) ==> StartsWith(rest, StyleHeader + styleGuide.value))
  {
    var b, c, d := StyleSection(styleGuide), FeedbackSection(retryFeedback), JsonInstruction;
    ConcatFrame(RulesTemplate, b, c, d);
    if Truthy(styleGuide) {
      StyleGiven(styleGuide.value, c, d);
    } else {
      StyleAbsent(retryFeedback);
    }
  }

  lemma StyleGiven(guide: string, c: string, d: string)
    ensures StartsWith(StyleHeader + guide + c + d, StyleHeader)
    ensures StartsWith(StyleHeader + guide + c + d, StyleHeader + guide)
  {
    ConcatFrame(StyleHeader, guide, c, d);
    StartsWithFirst(StyleHeader + guide, c, d);
  }

  /** The style header's third character is 'S'; the feedback header has 'U'
      there and the JSON instruction 'R'. */
  lemma StyleAbsent(retryFeedback: Option<string>)
    ensures !StartsWith("" + FeedbackSection(retryFeedback) + JsonInstruction, StyleHeader)
  {
    assert StyleHeader[2] == 'S';
    if Truthy(retryFeedback) {
      ThirdChar(FeedbackHeader, retryFeedback.value, JsonInstruction);
    } else {
      ThirdChar("\n\nRenvoie un JSON:\n", "", JsonRecord);
    }
  }

  /** With feedback, the prompt ends with the feedback header, the feedback
      and the JSON instruction; without, nothing sits between the style
      section and the JSON instruction. */
  lemma PromptFeedback(styleGuide: Option<string>, retryFeedback: Option<string>)
    ensures var p := SystemPrompt(styleGuide, retryFeedback);
      (Truthy(retryFeedback) ==> EndsWith(p, FeedbackHeader + retryFeedback.value + JsonInstruction))
      && (!Truthy(retryFeedback) ==> p == RulesTemplate + StyleSection(styleGuide) + JsonInstruction)
  {
    ConcatFrame(RulesTemplate, StyleSection(styleGuide), FeedbackSection(retryFeedback), JsonInstruction);
  }

  /** Without style guide and feedback the prompt is the rules followed by the JSON instruction. */
  lemma PromptPlain(styleGuide: Option<string>, retryFeedback: Option<string>)
    requires !Truthy(styleGuide) && !Truthy(retryFeedback)
    ensures SystemPrompt(styleGuide, retryFeedback) == RulesTemplate + JsonInstruction
  {
    assert RulesTemplate + "" == RulesTemplate;
  }

  /** For a given style guide, the prompt determines whether feedback was
      given and which: a rejected attempt's feedback reaches the engine
      unaltered. */
  lemma FeedbackDetermined(styleGuide: Option<string>, f1: Option<string>, f2: Option<string>)
    requires SystemPrompt(styleGuide, f1) == SystemPrompt(styleGuide, f2)
    ensures Truthy(f1) <==> Truthy(f2)
    ensures Truthy(f1) ==> f1.value == f2.value
  {
    MiddleDetermined(RulesTemplate + StyleSection(styleGuide), FeedbackSection(f1), FeedbackSection(f2), JsonInstruction);
    if Truthy(f1) && Truthy(f2) {
      TailDetermined(FeedbackHeader, f1.value, f2.value);
    }
  }

  // ---------------------------------------------------------------------------
  // the example exchange

  /** One correction of the example reply, in the order of its JSON keys. */
  datatype Example = Example(position: nat, original: string, correction: string, kind: CorrectionType, explication: string)

  /** The example sentence, written in pieces cut at the corrected words. */
  const FewShotUser: string :=
    "Il " + "arrivas" + " en courant, " + "essouflé" + ";" + " la porte était fermée "
    + "a clef" + ". Ses yeux " + "brillait" + " de peur."

  /** The example corrections with the positions the source gives them. */
  const FewShotExamplesAsWritten: seq<Example> := [
    Example(3, "arrivas", "arriva", Grammaire, "Conjugaison 3e personne singulier"),
    Example(23, "essouflé", "essoufflé", Orthographe, "Double f"),
    Example(31, ";", " ;", Ponctuation, "Espace avant point-virgule"),
    Example(59, "a clef", "à clé", Orthographe, "Accent + orthographe moderne"),
    Example(77, "brillait", "brillaient", Grammaire, "Accord pluriel avec \"yeux\"")
  ]

  /** The example corrections with every position the offset of its
      `original` in the example sentence, as the first three already are. */
  const FewShotExamples: seq<Example> := [
    Example(3, "arrivas", "arriva", Grammaire, "Conjugaison 3e personne singulier"),
    Example(23, "essouflé", "essoufflé", Orthographe, "Double f"),
    Example(31, ";", " ;", Ponctuation, "Espace avant point-virgule"),
    Example(55, "a clef", "à clé", Orthographe, "Accent + orthographe moderne"),
    Example(72, "brillait", "brillaient", Grammaire, "Accord pluriel avec \"yeux\"")
  ]

  /** The example's `original` text sits at its `position` in `text`. */
  predicate Anchored(text: string, e: Example) {
    e.position + |e.original| <= |text| && text[e.position..e.position + |e.original|] == e.original
  }

  /** As written, every example changes its text and names one of the four
      correction types, but only the first three positions point at their
      text: the last two do not. */
  lemma FewShotAsWrittenMisplaced()
    ensures |FewShotExamplesAsWritten| == 5
    ensures forall i :: 0 <= i < |FewShotExamplesAsWritten| ==>
      FewShotExamplesAsWritten[i].original != FewShotExamplesAsWritten[i].correction
      && TypeName(FewShotExamplesAsWritten[i].kind) in {"orthographe", "grammaire", "ponctuation", "syntaxe"}
    ensures forall i :: 0 <= i < 3 ==> Anchored(FewShotUser, FewShotExamplesAsWritten[i])
    ensures !Anchored(FewShotUser, FewShotExamplesAsWritten[3])
    ensures !Anchored(FewShotUser, FewShotExamplesAsWritten[4])
  {
    AsWrittenChangeText();
    AsWrittenAnchoredFirst();
    AsWrittenMisplacedLast();
  }

  lemma AsWrittenChangeText()
    ensures forall i :: 0 <= i < |FewShotExamplesAsWritten| ==>
      FewShotExamplesAsWritten[i].original != FewShotExamplesAsWritten[i].correction
      && TypeName(FewShotExamplesAsWritten[i].kind) in {"orthographe", "grammaire", "ponctuation", "syntaxe"}
  {
    var examples := FewShotExamplesAsWritten;
    forall i | 0 <= i < |examples| ensures |examples[i].original| != |examples[i].correction| {
    }
  }

  /** The first three examples are the same as in the corrected list. */
  lemma AsWrittenAnchoredFirst()
    ensures forall i :: 0 <= i < 3 ==> Anchored(FewShotUser, FewShotExamplesAsWritten[i])
  {
    AnchoredVerb();
    AnchoredAdjective();
    AnchoredSemicolon();
    assert FewShotExamplesAsWritten[0] == FewShotExamples[0];
    assert FewShotExamplesAsWritten[1] == FewShotExamples[1];
    assert FewShotExamplesAsWritten[2] == FewShotExamples[2];
  }

  lemma AsWrittenMisplacedLast()
    ensures !Anchored(FewShotUser, FewShotExamplesAsWritten[3])
    ensures !Anchored(FewShotUser, FewShotExamplesAsWritten[4])
  {
    assert FewShotUser[59] != 'a';
    assert FewShotUser[77] != 'b';
  }

  /** The example reply holds five corrections, each of which changes its
      text and points at where that text occurs in the example sentence. */
  lemma FewShotWellFormed()
    ensures |FewShotExamples| == 5
    ensures forall i :: 0 <= i < |FewShotExamples| ==>
      Anchored(FewShotUser, FewShotExamples[i]) && FewShotExamples[i].original != FewShotExamples[i].correction
  {
    var examples := FewShotExamples;
    forall i | 0 <= i < |examples| ensures |examples[i].original| != |examples[i].correction| {
    }
    AnchoredVerb();
    AnchoredAdjective();
    AnchoredSemicolon();
    AnchoredPhrase();
    AnchoredPlural();
  }

  lemma AnchoredVerb()
    ensures Anchored(FewShotUser, FewShotExamples[0])
  {
  }

  lemma AnchoredAdjective()
    ensures Anchored(FewShotUser, FewShotExamples[1])
  {
  }

  lemma AnchoredSemicolon()
    ensures Anchored(FewShotUser, FewShotExamples[2])
  {
  }

  lemma AnchoredPhrase()
    ensures Anchored(FewShotUser, FewShotExamples[3])
  {
  }

  lemma AnchoredPlural()
    ensures Anchored(FewShotUser, FewShotExamples[4])
  {
  }

  /** The JSON text `JSON.stringify` gives for one example correction. */
  function ExampleJson(e: Example): string {
    "{\"position\":" + NatToString(e.position)
    + ",\"original\":" + JsonString(e.original)
    + ",\"correction\":" + JsonString(e.correction)
    + ",\"type\":" + JsonString(TypeName(e.kind))
    + ",\"explication\":" + JsonString(e.explication) + "}"
  }

  /** The example reply as JSON text. */
  function FewShotAssistant(examples: seq<Example>): string {
    "{\"corrections\":[" + Join(seq(|examples|, i requires 0 <= i < |examples| => ExampleJson(examples[i])), ",") + "]}"
  }
}

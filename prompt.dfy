/**
 * The prompt sent to the language model (src/promptBuilder.ts).
 *
 * The prompt is four sections joined by a blank line: the JSON schema of the
 * question variants, the rules, the topic line and the reference block. Each
 * section is a template whose outer whitespace is trimmed. The schema and the
 * rules switch their answer-related parts on `withAnswers`, which defaults to
 * true.
 */
module Prompt {
  import opened Basics
  import opened Text
  import opened Types

  /** The wire name of a question type as the rules line lists it. */
  function TypeName(t: AllowedType): (r: string)
    ensures r != []
    ensures t == MultipleChoice <==> r == "multiple-choice"
  {
    match t
    case MultipleChoice => "multiple-choice"
    case Written => "written"
    case Matching => "matching"
  }

  function TypeNames(ts: seq<AllowedType>): (r: seq<string>)
    ensures |r| == |ts| && forall i :: 0 <= i < |ts| ==> r[i] == TypeName(ts[i])
  {
    seq(|ts|, i requires 0 <= i < |ts| => TypeName(ts[i]))
  }

  /** The options object `buildPrompt` receives. */
  datatype PromptOptions = PromptOptions(
    topic: string,
    count: int,
    allowedTypes: seq<AllowedType>,
    reference: Option<string>,
    withAnswers: Option<bool>)

  /** An absent `withAnswers` means true; only an explicit false turns answers off. */
  function WithAnswers(o: PromptOptions): (r: bool)
    ensures o.withAnswers.None? ==> r
    ensures o.withAnswers.Some? ==> r == o.withAnswers.value
  {
    o.withAnswers != Some(false)
  }

  /** The reference text after trimming; an absent or empty reference is "". */
  function Reference(o: PromptOptions): (r: string)
    ensures o.reference.None? ==> r == []
    ensures o.reference.Some? ==> (r == [] <==> AllSpace(o.reference.value))
    ensures r == [] || (!IsSpace(r[0]) && !IsSpace(r[|r| - 1]))
  {
    TrimSpec(o.reference.GetOr(""));
    Trim(o.reference.GetOr(""))
  }

  // ---------------------------------------------------------------- schema

  /** One extra schema entry, placed after the entry before it. */
  function Field(name: string, ty: string): string
  {
    ",\n    \"" + name + "\": " + ty
  }

  /**
   * The four places where the schema may carry answer entries: after the last
   * entry of each variant, and the explanation line of every variant.
   */
  datatype AnswerSlots = AnswerSlots(
    correctIndex: string, expectedAnswers: string, correctMatches: string, explanation: string)

  const NoAnswerSlots := AnswerSlots("", "", "", "")

  const FilledAnswerSlots := AnswerSlots(
    Field("correctIndex", "number"),
    Field("expectedAnswers", "string[]"),
    Field("correctMatches", "number[]"),
    Field("explanation", "string"))

  function SlotsFor(withAnswers: bool): AnswerSlots
  {
    if withAnswers then FilledAnswerSlots else NoAnswerSlots
  }

  const VariantHead := ":\n  {\n    \"id\": number,\n    \"type\": \""
  const VariantMiddle := "\",\n    \"text\": string,\n    \"points\": number,\n    "
  const VariantClose := "\n  }"

  /** The schema block of one question variant. */
  function Variant(kind: string, entries: string, answer: string, explanation: string): string
  {
    "- " + kind + VariantHead + kind + VariantMiddle + entries + answer
    + "\n    " + explanation + VariantClose
  }

  /** The schema section without its outer newlines. */
  function SchemaBody(count: int, slots: AnswerSlots): string
  {
    CountDemand(count) + SchemaIntro
    + Variant("multiple-choice", "\"options\": string[]", slots.correctIndex, slots.explanation)
    + "\n\n" + Variant("written", "\"answerBoxes\": number", slots.expectedAnswers, slots.explanation)
    + "\n\n" + Variant("matching", "\"leftItems\": string[],\n    \"rightItems\": string[]",
                       slots.correctMatches, slots.explanation)
  }

  /** The demand for the exact count that opens the schema. */
  function CountDemand(count: int): string
  {
    "Make EXACTLY " + IntToString(count) + " questions"
  }

  const SchemaIntro := " as a JSON array ONLY (no markdown, no prose).\n"
    + "Each element MUST be one of:\n\n"

  /** The schema section as written, before `.trim()`. */
  function SchemaTemplate(count: int, withAnswers: bool): string
  {
    "\n" + SchemaBody(count, SlotsFor(withAnswers)) + "\n"
  }

  function Schema(count: int, withAnswers: bool): string
  {
    Trim(SchemaTemplate(count, withAnswers))
  }

  // ----------------------------------------------------------------- rules

  function AnswerRule(withAnswers: bool): string
  {
    if withAnswers then IncludeAnswers else OmitAnswers
  }

  const IncludeAnswers := "- Include minimal solutions "
    + "(correctIndex / correctMatches / expectedAnswers) "
    + "and a 1\U{2013}2 sentence explanation."

  const OmitAnswers := "- DO NOT include any answers "
    + "or explanations."

  /** The line naming the allowed types, joined by ", ". */
  function TypesLine(types: seq<AllowedType>): string
  {
    "Rules:\n" + "- Allowed types ONLY: " + Join(TypeNames(types), ", ") + ".\n"
  }

  const FixedRules :=
    "- Return ONLY a JSON array (no keys, no wrapper object, no markdown).\n"
    + "- IDs can be 1..N in order.\n"
    + "- All questions must be UNIQUE. Do not repeat stems, do not use the same template repeatedly.\n"
    + "- Vary phrasing and subtopics. Avoid template-y \"Which of the following...\" for every item.\n"
    + "- Keep points to small integers (1\U{2013}3).\n"

  /** The rules section without its outer newlines. */
  function RulesBody(types: seq<AllowedType>, withAnswers: bool): string
  {
    TypesLine(types) + FixedRules + AnswerRule(withAnswers)
  }

  function Rules(types: seq<AllowedType>, withAnswers: bool): string
  {
    Trim("\n" + RulesBody(types, withAnswers) + "\n")
  }

  // --------------------------------------------------- topic and reference

  function TopicLine(topic: string): (r: string)
    ensures |r| == |topic| + 8
  {
    "Topic: " + topic + "."
  }

  const ReferenceIntro := "Use the material below "
    + "as reference (don\U{2019}t copy verbatim)."

  /** What the reference block shows: the trimmed reference, or "None". */
  function Shown(ref: string): string
  {
    if ref == [] then "None" else ref
  }

  function RefBlockBody(ref: string): string
  {
    ReferenceIntro + "\n---\n" + Shown(ref) + "\n---"
  }

  function RefBlock(ref: string): string
  {
    Trim("\n" + RefBlockBody(ref))
  }

  // ---------------------------------------------------------------- prompt

  /** `buildPrompt`. */
  function BuildPrompt(o: PromptOptions): string
  {
    Join([Schema(o.count, WithAnswers(o)), Rules(o.allowedTypes, WithAnswers(o)),
          TopicLine(o.topic), RefBlock(Reference(o))], "\n\n")
  }

  // --------------------------------------------------------------- lemmas

  /** Trimming a template removes exactly its outer newlines. */
  lemma SchemaTrimmed(count: int, withAnswers: bool)
    ensures Schema(count, withAnswers) == SchemaBody(count, SlotsFor(withAnswers))
  {
    var body := SchemaBody(count, SlotsFor(withAnswers));
    TrimExact("\n", body, "\n");
  }

  lemma RulesTrimmed(types: seq<AllowedType>, withAnswers: bool)
    ensures Rules(types, withAnswers) == RulesBody(types, withAnswers)
  {
    TrimExact("\n", RulesBody(types, withAnswers), "\n");
  }

  lemma RefBlockTrimmed(ref: string)
    ensures RefBlock(ref) == RefBlockBody(ref)
  {
    var body := RefBlockBody(ref);
    assert "\n" + body + "" == "\n" + body;
    TrimExact("\n", body, "");
  }

  /**
   * The prompt is the schema, the rules, the topic line and the reference
   * block, in that order, each separated from the next by a blank line.
   */
  lemma BuildPromptSections(o: PromptOptions)
    ensures BuildPrompt(o) == Schema(o.count, WithAnswers(o)) + "\n\n"
      + Rules(o.allowedTypes, WithAnswers(o)) + "\n\n"
      + TopicLine(o.topic) + "\n\n"
      + RefBlock(Reference(o))
  {
    JoinFour(Schema(o.count, WithAnswers(o)), Rules(o.allowedTypes, WithAnswers(o)),
             TopicLine(o.topic), RefBlock(Reference(o)), "\n\n");
  }

  /** Whatever starts the first of seven parts starts their concatenation. */
  lemma PrefixOfFirst(x: string, a: string, b: string, c: string, d: string, e: string, f: string, g: string)
    requires x <= a
    ensures x <= a + b + c + d + e + f + g
  {
    PrefixOfAppend(x, a, b);
    PrefixOfAppend(x, a + b, c);
    PrefixOfAppend(x, a + b + c, d);
    PrefixOfAppend(x, a + b + c + d, e);
    PrefixOfAppend(x, a + b + c + d + e, f);
    PrefixOfAppend(x, a + b + c + d + e + f, g);
  }

  /** The schema opens by demanding exactly `count` questions. */
  lemma SchemaDemandsCount(count: int, withAnswers: bool)
    ensures "Make EXACTLY " + IntToString(count) + " questions" <= Schema(count, withAnswers)
  {
    var slots := SlotsFor(withAnswers);
    var demand := CountDemand(count);
    PrefixOfFirst(demand, demand, SchemaIntro,
      Variant("multiple-choice", "\"options\": string[]", slots.correctIndex, slots.explanation),
      "\n\n", Variant("written", "\"answerBoxes\": number", slots.expectedAnswers, slots.explanation),
      "\n\n", Variant("matching", "\"leftItems\": string[],\n    \"rightItems\": string[]",
                       slots.correctMatches, slots.explanation));
    SchemaTrimmed(count, withAnswers);
  }

  /**
   * Without answers every answer slot of the schema is empty; with answers the
   * slots hold the correctIndex, expectedAnswers, correctMatches and
   * explanation entries.
   */
  lemma SchemaAnswers(count: int)
    ensures Schema(count, false) == SchemaBody(count, AnswerSlots("", "", "", ""))
    ensures Schema(count, true) == SchemaBody(count, AnswerSlots(
      Field("correctIndex", "number"), Field("expectedAnswers", "string[]"),
      Field("correctMatches", "number[]"), Field("explanation", "string")))
  {
    SchemaTrimmed(count, false);
    SchemaTrimmed(count, true);
  }

  /** The rules open with the allowed types joined by ", " and end with the answer rule. */
  lemma RulesShape(types: seq<AllowedType>, withAnswers: bool)
    ensures TypesLine(types) <= Rules(types, withAnswers)
    ensures var r := Rules(types, withAnswers); var a := AnswerRule(withAnswers);
      |a| <= |r| && r[|r| - |a|..] == a
  {
    RulesTrimmed(types, withAnswers);
    PrefixOfAppend(TypesLine(types), TypesLine(types), FixedRules);
    PrefixOfAppend(TypesLine(types), TypesLine(types) + FixedRules, AnswerRule(withAnswers));
    SuffixOfAppend(TypesLine(types) + FixedRules, AnswerRule(withAnswers));
  }

  /** The topic line carries the topic unchanged, with no fallback for an empty one. */
  lemma TopicLineHoldsTopic(topic: string)
    ensures var l := TopicLine(topic); |l| == |topic| + 8 && l[7..|l| - 1] == topic
    ensures TopicLine("") == "Topic: ."
  {
  }

  /** The reference block shows the trimmed reference, or "None" when there is none. */
  lemma RefBlockShows(o: PromptOptions)
    ensures RefBlock(Reference(o)) == ReferenceIntro + "\n---\n" + Shown(Reference(o)) + "\n---"
    ensures Reference(o) == [] ==> Shown(Reference(o)) == "None"
    ensures Shown(Reference(o)) == (if Trim(o.reference.GetOr("")) == [] then "None" else Trim(o.reference.GetOr("")))
  {
    RefBlockTrimmed(Reference(o));
  }

  /**
   * Whatever whitespace surrounds the reference, the block shows exactly the
   * text between it, and "None" only when that text is empty.
   */
  lemma RefBlockShowsCore(o: PromptOptions, before: string, core: string, after: string)
    requires o.reference == Some(before + core + after)
    requires AllSpace(before) && AllSpace(after)
    requires core != [] ==> !IsSpace(core[0]) && !IsSpace(core[|core| - 1])
    ensures Reference(o) == core
    ensures RefBlock(Reference(o)) == ReferenceIntro + "\n---\n" + (if core == [] then "None" else core) + "\n---"
  {
    TrimExact(before, core, after);
    RefBlockTrimmed(core);
  }

  /** Illustrations of `TypeNames` and `Join`: the types in order, separated by ", "; none gives an empty list. */
  lemma TypesJoined()
    ensures Join(TypeNames([MultipleChoice, Matching]), ", ") == "multiple-choice, matching"
    ensures Join(TypeNames([]), ", ") == ""
  {
    assert TypeNames([MultipleChoice, Matching]) == ["multiple-choice", "matching"];
    assert TypeNames([MultipleChoice, Matching])[..1] == ["multiple-choice"];
  }
}

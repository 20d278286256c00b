/**
 * The tagged question union of the quiz: three variants the generation
 * pipeline produces and two written variants that only the renderer and the
 * grading code know about.
 */
module Types {
  import opened Basics

  datatype QuestionType = MultipleChoice | Written | Matching | WrittenDual | WrittenSingle

  /** The types a caller may ask the generator for. */
  type AllowedType = t: QuestionType | t == MultipleChoice || t == Written || t == Matching
    witness MultipleChoice

  /** All three generated types, in the order the generator lists them by default. */
  const AllTypes: seq<AllowedType> := [MultipleChoice, Written, Matching]

  /** The type-specific part of a question. */
  datatype Body =
    | MultipleChoiceBody(options: seq<string>, correctIndex: Option<int>)
    | WrittenBody(answerBoxes: int, expectedAnswers: Option<seq<string>>)
    | MatchingBody(leftItems: seq<string>, rightItems: seq<string>, correctMatches: Option<seq<int>>)
    | WrittenDualInputBody(imageSrc: Option<string>, expectedAnswers: Option<seq<string>>)
    | WrittenSingleInputBody(expectedAnswers: Option<seq<string>>)

  /** The fields every question shares (`BaseQuestion`), and its typed part. */
  datatype Question = Question(id: int, text: string, points: int, explanation: Option<string>, body: Body)

  /** The `type` tag of a question. */
  function TypeOf(q: Question): QuestionType {
    match q.body
    case MultipleChoiceBody(_, _) => MultipleChoice
    case WrittenBody(_, _) => Written
    case MatchingBody(_, _, _) => Matching
    case WrittenDualInputBody(_, _) => WrittenDual
    case WrittenSingleInputBody(_) => WrittenSingle
  }

  /** A list of matches pointing into `rightItems`, one per left item. */
  predicate ValidMatches(cm: seq<int>, left: seq<string>, right: seq<string>) {
    |cm| == |left| && forall k :: 0 <= k < |cm| ==> 0 <= cm[k] < |right|
  }

  /**
   * The shape guarantees of a generated question: an answer key, when present,
   * points into its own list, and a written question has at least one box.
   */
  predicate WellFormed(q: Question) {
    match q.body
    case MultipleChoiceBody(options, correctIndex) =>
      correctIndex.Some? ==> 0 <= correctIndex.value < |options|
    case MatchingBody(left, right, correctMatches) =>
      correctMatches.Some? ==> ValidMatches(correctMatches.value, left, right)
    case WrittenBody(answerBoxes, _) => answerBoxes >= 1
    case WrittenDualInputBody(_, _) => true
    case WrittenSingleInputBody(_) => true
  }

  /** The same question apart from its `id`. */
  predicate SameButId(a: Question, b: Question) {
    a.text == b.text && a.points == b.points && a.explanation == b.explanation && a.body == b.body
  }

  /** Identifiers run 1, 2, ..., N in list order. */
  predicate DenseIds(qs: seq<Question>) {
    forall i :: 0 <= i < |qs| ==> qs[i].id == i + 1
  }

  /** `qs.map((q, i) => ({ ...q, id: i + 1 }))`. */
  function Reindex(qs: seq<Question>): (r: seq<Question>)
    ensures |r| == |qs| && DenseIds(r)
    ensures forall i :: 0 <= i < |qs| ==> SameButId(r[i], qs[i])
  {
    seq(|qs|, i requires 0 <= i < |qs| => qs[i].(id := i + 1))
  }

  /** Reindexing a list whose ids are already dense changes nothing, so reindexing is idempotent. */
  lemma ReindexDenseIsIdentity(qs: seq<Question>)
    requires DenseIds(qs)
    ensures Reindex(qs) == qs
  {
    var r := Reindex(qs);
    forall i | 0 <= i < |qs| ensures r[i] == qs[i] {
      assert r[i] == qs[i].(id := i + 1);
    }
  }

  /** Reindexing keeps each question's type and shape guarantees. */
  lemma ReindexKeepsShape(qs: seq<Question>)
    ensures forall i :: 0 <= i < |qs| ==> TypeOf(Reindex(qs)[i]) == TypeOf(qs[i])
    ensures forall i :: 0 <= i < |qs| ==> WellFormed(Reindex(qs)[i]) == WellFormed(qs[i])
  {
    var r := Reindex(qs);
    forall i | 0 <= i < |qs| ensures TypeOf(r[i]) == TypeOf(qs[i]) && WellFormed(r[i]) == WellFormed(qs[i]) {
      assert r[i] == qs[i].(id := i + 1);
    }
  }
}

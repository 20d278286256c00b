/**
 * Grading a submitted quiz (`handleSubmitQuiz` in src/App.tsx): multiple-choice
 * and matching questions are marked automatically, written questions always go
 * to the review list for manual marking, and the score is the rounded
 * percentage of automatically graded questions answered correctly.
 */
module Grading {
  import opened Basics
  import opened Types
  import opened Answers

  /** `arraysEqual`: same length and the same value at every index. */
  method ArraysEqual<T(==)>(a: seq<T>, b: seq<T>) returns (r: bool)
    ensures r <==> |a| == |b| && forall i :: 0 <= i < |a| ==> a[i] == b[i]
    ensures r <==> a == b
  {
    if |a| != |b| {
      return false;
    }
    for i := 0 to |a|
      invariant forall k :: 0 <= k < i ==> a[k] == b[k]
    {
      if a[i] != b[i] {
        return false;
      }
    }
    return true;
  }

  /** An answer key seen as a JavaScript array without holes. */
  function Dense(xs: seq<int>): (r: Sparse<int>)
    ensures |r| == |xs| && forall k :: 0 <= k < |xs| ==> r[k] == Some(xs[k])
  {
    seq(|xs|, k requires 0 <= k < |xs| => Some(xs[k]))
  }

  /** Multiple-choice and matching questions are graded automatically. */
  predicate AutoGraded(q: Question) {
    q.body.MultipleChoiceBody? || q.body.MatchingBody?
  }

  /**
   * A multiple-choice question is right when it has a numeric answer key and
   * the selected option is that key; a matching question is right when the
   * chosen matches equal the key, a missing array on either side being [];
   * a written question is never right.
   */
  predicate IsCorrect(q: Question, selected: map<int, int>, matching: map<int, Sparse<int>>)
    ensures IsCorrect(q, selected, matching) ==> AutoGraded(q)
  {
    match q.body
    case MultipleChoiceBody(_, correctIndex) =>
      correctIndex.Some? && q.id in selected && selected[q.id] == correctIndex.value
    case MatchingBody(_, _, correctMatches) =>
      Given(matching, q.id) == Dense(correctMatches.GetOr([]))
    case _ => false
  }

  /** What a review entry shows as an answer. */
  datatype Shown =
    | Absent
    | OptionText(text: string)
    | Chosen(matches: Sparse<int>)
    | Key(key: seq<int>)
    | Typed(entries: Sparse<string>)
    | Expected(answers: Option<seq<string>>)

  /** `options?.[i]`: the option text at `i`, or nothing when `i` is out of range. */
  function OptionAt(options: seq<string>, i: int): Shown {
    if 0 <= i < |options| then OptionText(options[i]) else Absent
  }

  /** One entry of the review list. */
  datatype Review = Review(
    question: Question, yourAnswer: Shown, correctAnswer: Shown,
    explanation: Option<string>, autoGraded: bool)

  /** The review entry of a question that was not counted correct. */
  function ReviewOf(q: Question, selected: map<int, int>, written: map<int, Sparse<string>>,
                    matching: map<int, Sparse<int>>): (r: Review)
    ensures r.question == q && r.explanation == q.explanation
    ensures r.autoGraded <==> AutoGraded(q)
  {
    match q.body
    case MultipleChoiceBody(options, correctIndex) =>
      Review(q, if q.id in selected then OptionAt(options, selected[q.id]) else Absent,
             if correctIndex.Some? then OptionAt(options, correctIndex.value) else Absent,
             q.explanation, true)
    case MatchingBody(_, _, correctMatches) =>
      Review(q, Chosen(Given(matching, q.id)), Key(correctMatches.GetOr([])), q.explanation, true)
    case WrittenBody(_, expected) =>
      Review(q, Typed(Given(written, q.id)), Expected(expected), q.explanation, false)
    case WrittenDualInputBody(_, expected) =>
      Review(q, Typed(Given(written, q.id)), Expected(expected), q.explanation, false)
    case WrittenSingleInputBody(expected) =>
      Review(q, Typed(Given(written, q.id)), Expected(expected), q.explanation, false)
  }

  /** The number of questions counted correct. */
  function CorrectCount(qs: seq<Question>, selected: map<int, int>, matching: map<int, Sparse<int>>): (r: nat)
    ensures r <= |qs|
    decreases |qs|
  {
    if qs == [] then 0
    else CorrectCount(qs[..|qs| - 1], selected, matching)
         + (if IsCorrect(qs[|qs| - 1], selected, matching) then 1 else 0)
  }

  /** The review list: every question not counted correct, in quiz order. */
  function Reviews(qs: seq<Question>, selected: map<int, int>, written: map<int, Sparse<string>>,
                   matching: map<int, Sparse<int>>): seq<Review>
    decreases |qs|
  {
    if qs == [] then []
    else
      var q := qs[|qs| - 1];
      Reviews(qs[..|qs| - 1], selected, written, matching)
      + (if IsCorrect(q, selected, matching) then [] else [ReviewOf(q, selected, written, matching)])
  }

  /** The number of automatically graded questions. */
  function AutoGradable(qs: seq<Question>): nat
    decreases |qs|
  {
    if qs == [] then 0 else AutoGradable(qs[..|qs| - 1]) + (if AutoGraded(qs[|qs| - 1]) then 1 else 0)
  }

  /**
   * `Math.round(correct / auto * 100)` computed exactly: the nearest integer
   * to the percentage, halves rounded up; 0 when nothing is auto-graded.
   */
  function Score(correct: nat, auto: nat): (r: int)
    ensures auto == 0 ==> r == 0
    ensures auto > 0 ==> 2 * auto * r <= 200 * correct + auto < 2 * auto * (r + 1)
  {
    if auto == 0 then 0 else (200 * correct + auto) / (2 * auto)
  }

  datatype Results = Results(total: nat, correct: nat, score: int, wrong: seq<Review>)

  /** The results `handleSubmitQuiz` records for the given answers. */
  function Graded(qs: seq<Question>, selected: map<int, int>, written: map<int, Sparse<string>>,
                  matching: map<int, Sparse<int>>): Results
  {
    var correct := CorrectCount(qs, selected, matching);
    Results(|qs|, correct, Score(correct, AutoGradable(qs)), Reviews(qs, selected, written, matching))
  }

  /** `handleSubmitQuiz`: one pass over the questions, counting and collecting reviews. */
  method SubmitQuiz(questions: seq<Question>, selected: map<int, int>, written: map<int, Sparse<string>>,
                    matching: map<int, Sparse<int>>) returns (r: Results)
    ensures r == Graded(questions, selected, written, matching)
  {
    var wrong: seq<Review> := [];
    var correctCount: nat := 0;
    for i := 0 to |questions|
      invariant correctCount == CorrectCount(questions[..i], selected, matching)
      invariant wrong == Reviews(questions[..i], selected, written, matching)
    {
      var q := questions[i];
      assert questions[..i + 1][..i] == questions[..i];
      var isCorrect := false;
      match q.body {
        case MultipleChoiceBody(_, correctIndex) =>
          isCorrect := correctIndex.Some? && q.id in selected && selected[q.id] == correctIndex.value;
        case MatchingBody(_, _, correctMatches) =>
          isCorrect := ArraysEqual(Given(matching, q.id), Dense(correctMatches.GetOr([])));
        case _ =>
      }
      if isCorrect {
        correctCount := correctCount + 1;
      } else {
        wrong := wrong + [ReviewOf(q, selected, written, matching)];
      }
    }
    assert questions[..|questions|] == questions;
    var auto := AutoGradable(questions);
    r := Results(|questions|, correctCount, Score(correctCount, auto), wrong);
  }

  // --------------------------------------------------------------- lemmas

  /** Only auto-graded questions can be right, so the count never exceeds their number. */
  lemma {:induction false} CorrectAtMostAutoGradable(qs: seq<Question>, selected: map<int, int>,
                                                     matching: map<int, Sparse<int>>)
    ensures CorrectCount(qs, selected, matching) <= AutoGradable(qs)
    decreases |qs|
  {
    if qs != [] {
      CorrectAtMostAutoGradable(qs[..|qs| - 1], selected, matching);
    }
  }

  /**
   * Every question is either counted correct or listed for review, and a
   * review is auto-graded exactly when its question is.
   */
  lemma {:induction false} EveryQuestionAccounted(qs: seq<Question>, selected: map<int, int>,
                                                  written: map<int, Sparse<string>>, matching: map<int, Sparse<int>>)
    ensures CorrectCount(qs, selected, matching) + |Reviews(qs, selected, written, matching)| == |qs|
    ensures forall k :: 0 <= k < |Reviews(qs, selected, written, matching)| ==>
      var rv := Reviews(qs, selected, written, matching)[k];
      rv.question in qs && !IsCorrect(rv.question, selected, matching) && (rv.autoGraded <==> AutoGraded(rv.question))
    decreases |qs|
  {
    if qs != [] {
      var init := qs[..|qs| - 1];
      EveryQuestionAccounted(init, selected, written, matching);
      assert forall q :: q in init ==> q in qs;
    }
  }

  /** Every written question ends up in the review list, marked for manual grading. */
  lemma {:induction false} WrittenAlwaysReviewed(qs: seq<Question>, selected: map<int, int>,
                                                 written: map<int, Sparse<string>>, matching: map<int, Sparse<int>>, i: nat)
    requires i < |qs| && !AutoGraded(qs[i])
    ensures ReviewOf(qs[i], selected, written, matching) in Reviews(qs, selected, written, matching)
    ensures !ReviewOf(qs[i], selected, written, matching).autoGraded
    decreases |qs|
  {
    if i < |qs| - 1 {
      WrittenAlwaysReviewed(qs[..|qs| - 1], selected, written, matching, i);
    }
  }

  /** `a / d` lies strictly below `q` when `a` does below `q * d`. */
  lemma QuotientBelow(a: int, d: int, q: int)
    requires 0 <= a && 0 < d && a < q * d
    ensures a / d < q
  {
    var x := a / d;
    assert x * d <= a;
    assert (q - x) * d == q * d - x * d;
    SignOfProduct(q - x, d);
  }

  /** `a / d` is `q` when `a` lies in `[q * d, q * d + d)`. */
  lemma QuotientIs(a: int, d: int, q: int)
    requires 0 < d && q * d <= a < q * d + d
    ensures a / d == q
  {
    var x := a / d;
    assert x * d <= a < x * d + d;
    assert (q - x) * d == q * d - x * d;
    assert (x - q) * d == x * d - q * d;
    SignOfProduct(q - x + 1, d);
    SignOfProduct(x - q + 1, d);
  }

  /** A product with a positive factor is positive only when the other factor is. */
  lemma {:induction false} SignOfProduct(m: int, d: int)
    requires 0 < d
    ensures m * d > 0 <==> m > 0
    decreases if m < 0 then -m else m
  {
    if m > 0 {
      SignOfProduct(m - 1, d);
      assert m * d == (m - 1) * d + d;
    } else if m < 0 {
      SignOfProduct(m + 1, d);
      assert m * d == (m + 1) * d - d;
    }
  }

  /** The score is a percentage: 0 with nothing correct, 100 with everything correct. */
  lemma ScoreBounds(correct: nat, auto: nat)
    requires correct <= auto
    ensures 0 <= Score(correct, auto) <= 100
    ensures correct == 0 ==> Score(correct, auto) == 0
    ensures 0 < auto && correct == auto ==> Score(correct, auto) == 100
  {
    if auto > 0 {
      QuotientBelow(200 * correct + auto, 2 * auto, 101);
      if correct == 0 {
        QuotientIs(auto, 2 * auto, 0);
      }
      if correct == auto {
        QuotientIs(201 * auto, 2 * auto, 100);
      }
    }
  }

  /** The recorded results: total, correct no more than auto-graded, score a percentage. */
  lemma GradedBounds(qs: seq<Question>, selected: map<int, int>, written: map<int, Sparse<string>>,
                     matching: map<int, Sparse<int>>)
    ensures var r := Graded(qs, selected, written, matching);
      r.total == |qs| && r.correct <= AutoGradable(qs) && 0 <= r.score <= 100 &&
      (AutoGradable(qs) == 0 ==> r.score == 0) &&
      (r.correct == 0 ==> r.score == 0) &&
      (0 < AutoGradable(qs) && r.correct == AutoGradable(qs) ==> r.score == 100)
  {
    CorrectAtMostAutoGradable(qs, selected, matching);
    ScoreBounds(CorrectCount(qs, selected, matching), AutoGradable(qs));
  }

  /** A multiple-choice question without an answer key is always wrong. */
  lemma NoKeyNeverCorrect(q: Question, selected: map<int, int>, matching: map<int, Sparse<int>>)
    requires q.body.MultipleChoiceBody? && q.body.correctIndex.None?
    ensures !IsCorrect(q, selected, matching)
  {
  }

  /**
   * A matching question without an answer key counts as correct when nothing
   * was chosen for it, since both sides default to [], and wrong once any
   * choice was made.
   */
  lemma MatchingWithoutKey(q: Question, selected: map<int, int>, matching: map<int, Sparse<int>>)
    requires q.body.MatchingBody? && q.body.correctMatches.None?
    ensures IsCorrect(q, selected, matching) <==> Given(matching, q.id) == []
  {
  }

  /** A chosen match list is right exactly when it has the key's length and agrees with it at every index. */
  lemma MatchingCorrectIff(q: Question, selected: map<int, int>, matching: map<int, Sparse<int>>)
    requires q.body.MatchingBody? && q.body.correctMatches.Some?
    ensures var chosen := Given(matching, q.id); var key := q.body.correctMatches.value;
      IsCorrect(q, selected, matching) <==>
        |chosen| == |key| && forall k :: 0 <= k < |key| ==> chosen[k] == Some(key[k])
  {
    var chosen := Given(matching, q.id);
    var key := q.body.correctMatches.value;
    if |chosen| == |key| && forall k :: 0 <= k < |key| ==> chosen[k] == Some(key[k]) {
      assert chosen == Dense(key);
    }
  }
}

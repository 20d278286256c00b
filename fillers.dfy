/**
 * Deterministic filler questions, used to pad a short batch up to the
 * requested count. The type is the first of multiple-choice, matching,
 * written that the caller allows; the content rotates through small banks
 * keyed by the filler's position.
 */
module Fillers {
  import opened Basics
  import opened Types

  /** `pick(arr, i)`: the element at `i` modulo the length of the bank. */
  function Pick<T>(arr: seq<T>, i: nat): (r: T)
    requires |arr| > 0
    ensures r in arr
  {
    arr[i % |arr|]
  }

  /** Picking wraps around: positions a whole bank apart give the same element. */
  lemma PickWraps<T>(arr: seq<T>, i: nat)
    requires |arr| > 0
    ensures Pick(arr, i + |arr|) == Pick(arr, i)
  {
    ModShift(i, |arr|);
  }

  lemma ModShift(i: nat, n: nat)
    requires n > 0
    ensures (i + n) % n == i % n
  {
    var q, r := i / n, i % n;
    assert (q + 1) * n == q * n + n;
    DivModUnique(i + n, n, q + 1, r);
  }

  /** Adding a multiple of `n` does not change the remainder. */
  lemma ModAddMultiple(i: nat, n: nat, k: nat)
    requires n > 0
    ensures (i + k * n) % n == i % n
  {
    var q := i / n;
    assert (q + k) * n == q * n + k * n;
    DivModUnique(i + k * n, n, q + k, i % n);
  }

  lemma {:induction false} MulAtLeast(k: int, n: int)
    requires k >= 1 && n > 0
    ensures k * n >= n
    decreases k
  {
    if k > 1 {
      MulAtLeast(k - 1, n);
      assert k * n == (k - 1) * n + n;
    }
  }

  lemma MulGap(a: int, b: int, n: int)
    requires n > 0
    ensures a < b ==> a * n + n <= b * n
  {
    if a < b {
      MulAtLeast(b - a, n);
      assert (b - a) * n == b * n - a * n;
    }
  }

  /** Euclidean division has one quotient and one remainder. */
  lemma DivModUnique(x: int, n: int, q: int, r: int)
    requires n > 0 && 0 <= r < n && x == q * n + r
    ensures x / n == q && x % n == r
  {
    var q0, r0 := x / n, x % n;
    assert x == q0 * n + r0 && 0 <= r0 < n;
    MulGap(q0, q, n);
    MulGap(q, q0, n);
  }

  /** The preference order of filler types. */
  const Prefer: seq<AllowedType> := [MultipleChoice, Matching, Written]

  /** `prefer.findIndex(t => allowed.includes(t))`, with `None` for "not found". */
  function FindIndex(prefer: seq<AllowedType>, allowed: seq<AllowedType>): (r: Option<nat>)
    ensures r.Some? ==> r.value < |prefer| && prefer[r.value] in allowed
    ensures r.Some? ==> forall j :: 0 <= j < r.value ==> prefer[j] !in allowed
    ensures r.None? ==> forall j :: 0 <= j < |prefer| ==> prefer[j] !in allowed
    decreases |prefer|
  {
    if prefer == [] then None
    else if prefer[0] in allowed then Some(0)
    else match FindIndex(prefer[1..], allowed)
      case None => None
      case Some(k) => Some(k + 1)
  }

  /** `prefer.find(t => allowed.includes(t)) || 'written'`. */
  function FillerType(allowed: seq<AllowedType>): (r: AllowedType)
    ensures r in allowed || (r == Written && forall t :: t in Prefer ==> t !in allowed)
  {
    match FindIndex(Prefer, allowed)
    case Some(k) => Prefer[k]
    case None => Written
  }

  /** The filler type follows the preference order multiple-choice, matching, written. */
  lemma FillerTypeOrder(allowed: seq<AllowedType>)
    ensures FillerType(allowed) == MultipleChoice <==> MultipleChoice in allowed
    ensures FillerType(allowed) == Matching <==> MultipleChoice !in allowed && Matching in allowed
    ensures FillerType(allowed) == Written <==> MultipleChoice !in allowed && Matching !in allowed
  {
    var r := FindIndex(Prefer, allowed);
    if r.Some? {
      assert r.value == 0 || Prefer[0] !in allowed;
      assert r.value == 2 ==> Prefer[1] !in allowed;
    }
  }

  /** When the caller allows at least one type, the filler's type is one of them. */
  lemma FillerTypeAllowed(allowed: seq<AllowedType>)
    requires |allowed| > 0
    ensures FillerType(allowed) in allowed
  {
    var t := allowed[0];
    assert t == Prefer[0] || t == Prefer[1] || t == Prefer[2];
    FillerTypeOrder(allowed);
  }

  function Stems(topic: string): seq<string> {
    [ "Which statement about " + topic + " is most accurate?",
      "Which option best illustrates " + topic + " in practice?",
      "Which concept is core to " + topic + "?",
      "Which of these is most closely tied to " + topic + "?",
      "Which description best matches " + topic + "?" ]
  }

  function Variants(topic: string): seq<seq<string>> {
    [ ["A core idea in " + topic, "Sometimes related to " + topic, "Tangential", "Not related"],
      ["Fundamental to " + topic, "Peripheral to " + topic, "Outdated", "Incorrect"],
      ["Central principle of " + topic, "Occasionally relevant", "Rarely relevant", "Contradictory"] ]
  }

  const LeftBanks: seq<seq<string>> :=
    [ ["Term A", "Term B", "Term C"],
      ["Concept X", "Concept Y", "Concept Z"],
      ["Layer 1", "Layer 2", "Layer 3"] ]

  const RightBanks: seq<seq<string>> :=
    [ ["Definition A", "Definition B", "Definition C"],
      ["Example X", "Example Y", "Example Z"],
      ["Role 1", "Role 2", "Role 3"] ]

  function Prompts(topic: string): seq<string> {
    [ "Define one key idea in " + topic + " and give a one-sentence example.",
      "Briefly explain why " + topic + " matters in practice.",
      "State a principle of " + topic + " and how it\U{2019}s applied.",
      "Describe a common pitfall to avoid in " + topic + "." ]
  }

  /** The multiple-choice branch: a stem and an option set picked by position, the first option correct. */
  function MultipleChoiceFiller(id: int, topic: string): (r: Question)
    requires id >= 1
    ensures r.id == id && r.points == 1 && TypeOf(r) == MultipleChoice && WellFormed(r)
    ensures r.body.correctIndex == Some(0) && |r.body.options| == 4
  {
    var options := Pick(Variants(topic), id - 1);
    assert |options| == 4 by {
      assert forall k :: 0 <= k < 3 ==> |Variants(topic)[k]| == 4;
    }
    Question(id, Pick(Stems(topic), id - 1), 1,
      Some("Option 1 is directly tied to " + topic + "; others are less central or unrelated."),
      MultipleChoiceBody(options, Some(0)))
  }

  /** The matching branch: three left and three right items picked by position, matched one to one. */
  function MatchingFiller(id: int, topic: string): (r: Question)
    requires id >= 1
    ensures r.id == id && r.points == 1 && TypeOf(r) == Matching && WellFormed(r)
    ensures |r.body.leftItems| == 3 && |r.body.rightItems| == 3 && r.body.correctMatches == Some([0, 1, 2])
  {
    var left, right := Pick(LeftBanks, id - 1), Pick(RightBanks, id - 1);
    assert |left| == 3 && |right| == 3 by {
      assert forall k :: 0 <= k < 3 ==> |LeftBanks[k]| == 3 && |RightBanks[k]| == 3;
    }
    Question(id, "Match items to their brief descriptions (" + topic + ").", 1,
      Some("Each item pairs with the like-labeled description."),
      MatchingBody(left, right, Some([0, 1, 2])))
  }

  /** The written branch: a prompt picked by position and a single answer box. */
  function WrittenFiller(id: int, topic: string): (r: Question)
    requires id >= 1
    ensures r.id == id && r.points == 1 && TypeOf(r) == Written && WellFormed(r)
    ensures r.body.answerBoxes == 1
  {
    Question(id, Pick(Prompts(topic), id - 1), 1,
      Some("A short, precise statement is enough."),
      WrittenBody(1, Some(["Concise definition/example"])))
  }

  /**
   * `createFillerQuestion(id, allowed, topic)`. Its callers number fillers
   * from 1, so `id - 1` is a valid position in every bank.
   */
  function CreateFillerQuestion(id: int, allowed: seq<AllowedType>, topic: string): (r: Question)
    requires id >= 1
    ensures r.id == id && r.points == 1 && TypeOf(r) == FillerType(allowed) && WellFormed(r)
  {
    match FillerType(allowed)
    case MultipleChoice => MultipleChoiceFiller(id, topic)
    case Matching => MatchingFiller(id, topic)
    case Written => WrittenFiller(id, topic)
  }

  /** A multiple-choice filler asks one of the stems and offers one of the option sets. */
  lemma MultipleChoiceFillerContent(id: int, topic: string)
    requires id >= 1
    ensures MultipleChoiceFiller(id, topic).text in Stems(topic)
    ensures MultipleChoiceFiller(id, topic).body.options in Variants(topic)
  {
  }

  /** A matching filler pairs a left bank with the right bank at the same position. */
  lemma MatchingFillerContent(id: int, topic: string)
    requires id >= 1
    ensures exists k :: (0 <= k < 3 && MatchingFiller(id, topic).body.leftItems == LeftBanks[k] &&
                         MatchingFiller(id, topic).body.rightItems == RightBanks[k])
  {
    var k := (id - 1) % 3;
    assert MatchingFiller(id, topic).body.leftItems == LeftBanks[k];
  }

  /** A written filler asks one of the prompts. */
  lemma WrittenFillerContent(id: int, topic: string)
    requires id >= 1
    ensures WrittenFiller(id, topic).text in Prompts(topic)
  {
  }

  /** Two positions less than a bank apart fall on different entries of that bank. */
  lemma ModDiffers(a: nat, b: nat, n: nat)
    requires 0 < b - a < n
    ensures a % n != b % n
  {
    var qa, qb := a / n, b / n;
    assert a == qa * n + a % n && 0 <= a % n < n;
    assert b == qb * n + b % n && 0 <= b % n < n;
    MulGap(qa, qb, n);
    MulGap(qb, qa, n);
  }

  lemma StemsDistinct(topic: string, k1: nat, k2: nat)
    requires k1 < k2 < 5
    ensures Stems(topic)[k1] != Stems(topic)[k2]
  {
    var s := Stems(topic);
    if k1 == 1 && k2 == 3 {
      assert s[1][7] == 'p' && s[3][7] == 'f';
    } else {
      assert s[0][6] == 's' && s[1][6] == 'o' && s[2][6] == 'c' && s[3][6] == 'o' && s[4][6] == 'd';
    }
  }

  lemma PromptsDistinct(topic: string, k1: nat, k2: nat)
    requires k1 < k2 < 4
    ensures Prompts(topic)[k1] != Prompts(topic)[k2]
  {
    var p := Prompts(topic);
    if k1 == 0 && k2 == 3 {
      assert p[0][2] == 'f' && p[3][2] == 's';
    } else {
      assert p[0][0] == 'D' && p[1][0] == 'B' && p[2][0] == 'S' && p[3][0] == 'D';
    }
  }

  /** Multiple-choice fillers less than five positions apart have different stems. */
  lemma MultipleChoiceTextsDiffer(i: int, j: int, topic: string)
    requires 1 <= i < j && j - i < 5
    ensures MultipleChoiceFiller(i, topic).text != MultipleChoiceFiller(j, topic).text
  {
    ModDiffers(i - 1, j - 1, 5);
    var k1, k2 := (i - 1) % 5, (j - 1) % 5;
    if k1 < k2 { StemsDistinct(topic, k1, k2); } else { StemsDistinct(topic, k2, k1); }
  }

  /** Written fillers less than four positions apart have different prompts. */
  lemma WrittenTextsDiffer(i: int, j: int, topic: string)
    requires 1 <= i < j && j - i < 4
    ensures WrittenFiller(i, topic).text != WrittenFiller(j, topic).text
  {
    ModDiffers(i - 1, j - 1, 4);
    var k1, k2 := (i - 1) % 4, (j - 1) % 4;
    if k1 < k2 { PromptsDistinct(topic, k1, k2); } else { PromptsDistinct(topic, k2, k1); }
  }

  /**
   * Multiple-choice and written fillers less than a bank apart have
   * different texts (five stems, four prompts).
   */
  lemma FillerTextsDiffer(i: int, j: int, allowed: seq<AllowedType>, topic: string)
    requires 1 <= i < j
    requires FillerType(allowed) != Matching
    requires j - i < (if FillerType(allowed) == MultipleChoice then 5 else 4)
    ensures CreateFillerQuestion(i, allowed, topic).text != CreateFillerQuestion(j, allowed, topic).text
  {
    if FillerType(allowed) == MultipleChoice {
      MultipleChoiceTextsDiffer(i, j, topic);
    } else {
      WrittenTextsDiffer(i, j, topic);
    }
  }

  /** Consecutive matching fillers draw on different left banks. */
  lemma MatchingFillersDiffer(id: int, topic: string)
    requires id >= 1
    ensures MatchingFiller(id, topic) != MatchingFiller(id + 1, topic)
  {
    ModDiffers(id - 1, id, 3);
    var k1, k2 := (id - 1) % 3, id % 3;
    assert LeftBanks[0][0][0] == 'T' && LeftBanks[1][0][0] == 'C' && LeftBanks[2][0][0] == 'L';
    assert LeftBanks[k1] != LeftBanks[k2];
  }

  /** Consecutive fillers are never the same question, whatever the allowed types. */
  lemma ConsecutiveFillersDiffer(id: int, allowed: seq<AllowedType>, topic: string)
    requires id >= 1
    ensures CreateFillerQuestion(id, allowed, topic) != CreateFillerQuestion(id + 1, allowed, topic)
  {
    if FillerType(allowed) == Matching {
      MatchingFillersDiffer(id, topic);
    } else {
      FillerTextsDiffer(id, id + 1, allowed, topic);
    }
  }

  /**
   * Under a long shortfall fillers repeat: a filler and the one a full
   * period later (fifteen positions for multiple choice, three for matching,
   * four for written) differ only in their id.
   */
  lemma MultipleChoiceFillerRepeats(id: int, topic: string)
    requires id >= 1
    ensures SameButId(MultipleChoiceFiller(id, topic), MultipleChoiceFiller(id + 15, topic))
  {
    ModAddMultiple(id - 1, 5, 3);
    ModAddMultiple(id - 1, 3, 5);
  }

  lemma MatchingFillerRepeats(id: int, topic: string)
    requires id >= 1
    ensures SameButId(MatchingFiller(id, topic), MatchingFiller(id + 3, topic))
  {
    ModShift(id - 1, 3);
  }

  lemma WrittenFillerRepeats(id: int, topic: string)
    requires id >= 1
    ensures SameButId(WrittenFiller(id, topic), WrittenFiller(id + 4, topic))
  {
    ModShift(id - 1, 4);
  }

  /** The filler `ensureExactCount` pushes at position `p` of its list (counting from 0). */
  function FillerAt(allowed: seq<AllowedType>, topic: string): nat -> Question {
    (p: nat) => CreateFillerQuestion(p + 1, allowed, topic)
  }

  /** The filler at position `p` has id `p + 1`. */
  lemma FillerAtNumbered(allowed: seq<AllowedType>, topic: string)
    ensures forall p: nat :: FillerAt(allowed, topic)(p).id == p + 1
  {
  }

  /** With at least one allowed type, every filler has an allowed type and keeps the shape guarantees. */
  lemma FillerAtAllowed(allowed: seq<AllowedType>, topic: string)
    requires |allowed| > 0
    ensures forall p: nat :: TypeOf(FillerAt(allowed, topic)(p)) in allowed && WellFormed(FillerAt(allowed, topic)(p))
  {
    FillerTypeAllowed(allowed);
  }
}

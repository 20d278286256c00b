/**
 * The answer bookkeeping of the quiz page (src/App.tsx): the set of answered
 * question ids and the three answer records, keyed by question id. Written and
 * matching answers are JavaScript arrays that may have holes; a hole (or an
 * index past the end) reads as `undefined`, modelled as `None`.
 */
module Answers {
  import opened Basics
  import opened Text

  /** A JavaScript array whose slots may be holes. */
  type Sparse<T> = seq<Option<T>>

  /** `record[id] ?? []`: the array stored for a question, or an empty one. */
  function Given<T>(record: map<int, Sparse<T>>, id: int): (r: Sparse<T>)
    ensures id in record ==> r == record[id]
    ensures id !in record ==> r == []
  {
    if id in record then record[id] else []
  }

  /**
   * `arr[i] = v` on a copy: the slot is set, and an index past the end
   * lengthens the array with holes in between.
   */
  function SetSlot<T>(arr: Sparse<T>, i: nat, v: T): (r: Sparse<T>)
    ensures |r| == Max(|arr|, i + 1)
    ensures r[i] == Some(v)
    ensures forall k :: 0 <= k < |r| && k != i ==> r[k] == (if k < |arr| then arr[k] else None)
  {
    if i < |arr| then arr[i := Some(v)]
    else arr + seq(i - |arr|, k => None) + [Some(v)]
  }

  /** `delete arr[i]` on a copy: the slot becomes a hole and the length stays. */
  function ClearSlot<T>(arr: Sparse<T>, i: nat): (r: Sparse<T>)
    ensures |r| == |arr|
    ensures i < |arr| ==> r[i] == None
    ensures forall k :: 0 <= k < |r| && k != i ==> r[k] == arr[k]
  {
    if i < |arr| then arr[i := None] else arr
  }

  /** The new written-answer record after typing `value` into box `answerIndex`. */
  function WrittenUpdate(record: map<int, Sparse<string>>, questionId: int, answerIndex: nat, value: string)
    : (r: map<int, Sparse<string>>)
    ensures r.Keys == record.Keys + {questionId}
    ensures forall id :: id in record && id != questionId ==> r[id] == record[id]
    ensures answerIndex < |r[questionId]| && r[questionId][answerIndex] == Some(value)
  {
    record[questionId := SetSlot(Given(record, questionId), answerIndex, value)]
  }

  /**
   * The new matching-answer record after choosing `raw` for left item
   * `leftIndex`: an empty choice clears the slot, a choice `parseInt` cannot
   * read leaves the array as it was, anything else stores the number read. The
   * question's entry is written back in every case.
   */
  function MatchingUpdate(record: map<int, Sparse<int>>, questionId: int, leftIndex: nat, raw: string)
    : (r: map<int, Sparse<int>>)
    ensures r.Keys == record.Keys + {questionId}
    ensures forall id :: id in record && id != questionId ==> r[id] == record[id]
    ensures |r[questionId]| >= |Given(record, questionId)|
  {
    var arr := Given(record, questionId);
    var next :=
      if raw == "" then ClearSlot(arr, leftIndex)
      else match ParseInt(raw)
        case None => arr
        case Some(rightIndex) => SetSlot(arr, leftIndex, rightIndex);
    record[questionId := next]
  }

  /** A written answer changes one box of one question and nothing else. */
  lemma WrittenUpdateOnlySlot(record: map<int, Sparse<string>>, questionId: int, answerIndex: nat, value: string)
    ensures var r := WrittenUpdate(record, questionId, answerIndex, value);
      r.Keys == record.Keys + {questionId} &&
      (forall id :: id in record && id != questionId ==> r[id] == record[id]) &&
      r[questionId][answerIndex] == Some(value) &&
      |r[questionId]| == Max(|Given(record, questionId)|, answerIndex + 1) &&
      forall k :: 0 <= k < |r[questionId]| && k != answerIndex ==>
        r[questionId][k] == (if k < |Given(record, questionId)| then Given(record, questionId)[k] else None)
  {
  }

  /** The three outcomes of a matching choice, each confined to one slot of one question. */
  lemma MatchingUpdateCases(record: map<int, Sparse<int>>, questionId: int, leftIndex: nat, raw: string)
    ensures var r := MatchingUpdate(record, questionId, leftIndex, raw);
      r.Keys == record.Keys + {questionId} &&
      forall id :: id in record && id != questionId ==> r[id] == record[id]
    ensures raw == "" ==>
      MatchingUpdate(record, questionId, leftIndex, raw)[questionId] == ClearSlot(Given(record, questionId), leftIndex)
    ensures raw != "" && ParseInt(raw).None? ==>
      MatchingUpdate(record, questionId, leftIndex, raw)[questionId] == Given(record, questionId)
    ensures raw != "" && ParseInt(raw).Some? ==>
      MatchingUpdate(record, questionId, leftIndex, raw)[questionId] ==
        SetSlot(Given(record, questionId), leftIndex, ParseInt(raw).value)
  {
  }

  /** Setting a slot and then clearing it leaves a hole there and the rest as set. */
  lemma SetThenClear<T>(arr: Sparse<T>, i: nat, v: T)
    ensures var r := ClearSlot(SetSlot(arr, i, v), i);
      |r| == Max(|arr|, i + 1) && r[i] == None &&
      forall k :: 0 <= k < |r| && k != i ==> r[k] == (if k < |arr| then arr[k] else None)
  {
  }

  /** Setting the same slot twice keeps only the second value. */
  lemma SetSlotTwice<T>(arr: Sparse<T>, i: nat, v: T, w: T)
    ensures SetSlot(SetSlot(arr, i, v), i, w) == SetSlot(arr, i, w)
  {
    var a := SetSlot(SetSlot(arr, i, v), i, w);
    var b := SetSlot(arr, i, w);
    assert |a| == |b|;
    forall k | 0 <= k < |a| ensures a[k] == b[k] {
    }
  }

  /**
   * The answer state of the quiz page. Each handler marks its question as
   * answered and replaces one record with an updated copy.
   */
  class AnswerSheet {
    var answered: set<int>
    var selected: map<int, int>
    var written: map<int, Sparse<string>>
    var matching: map<int, Sparse<int>>

    constructor ()
      ensures answered == {} && selected == map[] && written == map[] && matching == map[]
    {
      answered := {};
      selected := map[];
      written := map[];
      matching := map[];
    }

    /** `handleAnswerSelect`. */
    method SelectAnswer(questionId: int, answerIndex: int)
      modifies this
      ensures answered == old(answered) + {questionId}
      ensures selected == old(selected)[questionId := answerIndex]
      ensures written == old(written) && matching == old(matching)
    {
      answered := answered + {questionId};
      selected := selected[questionId := answerIndex];
    }

    /** `handleWrittenAnswer`. */
    method WrittenAnswer(questionId: int, answerIndex: nat, value: string)
      modifies this
      ensures answered == old(answered) + {questionId}
      ensures written == WrittenUpdate(old(written), questionId, answerIndex, value)
      ensures selected == old(selected) && matching == old(matching)
    {
      answered := answered + {questionId};
      var arr := Given(written, questionId);
      arr := SetSlot(arr, answerIndex, value);
      written := written[questionId := arr];
    }

    /** `handleMatchingAnswer`. */
    method MatchingAnswer(questionId: int, leftIndex: nat, raw: string)
      modifies this
      ensures answered == old(answered) + {questionId}
      ensures matching == MatchingUpdate(old(matching), questionId, leftIndex, raw)
      ensures selected == old(selected) && written == old(written)
    {
      answered := answered + {questionId};
      var arr := Given(matching, questionId);
      if raw == "" {
        arr := ClearSlot(arr, leftIndex);
      } else {
        var rightIndex := ParseInt(raw);
        if rightIndex.Some? {
          arr := SetSlot(arr, leftIndex, rightIndex.value);
        }
      }
      matching := matching[questionId := arr];
    }
  }
}

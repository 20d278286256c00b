/**
 * `normalizeQuestions`: turn loosely shaped parsed JSON items into typed
 * questions. Each item is classified by its `type` tag and by which arrays
 * it carries, missing fields take defaults, answer keys that do not point
 * into their own lists are dropped, and items without a usable numeric id
 * are numbered by a running counter.
 */
module Normalize {
  import opened Basics
  import opened Text
  import opened Json
  import opened Types

  /** What reading `q.type` on a `null` item throws; it aborts the whole `map`. */
  const NullItemError: string := "TypeError: Cannot read properties of null (reading 'type')"

  /** `String(x ?? '')` for a property that may be absent. */
  function StringOr(x: Option<Json>): (r: string)
    ensures x.Some? && x.value.JString? ==> r == x.value.s
    ensures x.None? || x.value.JNull? ==> r == ""
  {
    match x
    case None => ""
    case Some(JNull) => ""
    case Some(v) => ToStr(v)
  }

  /** `String(q.type ?? '').toLowerCase()`. */
  function TypeTag(q: Json): (r: string)
    ensures Get(q, "type").Some? && Get(q, "type").value.JString? ==> r == Lower(Get(q, "type").value.s)
    ensures Get(q, "type").None? ==> r == ""
    ensures forall i :: 0 <= i < |r| ==> !('A' <= r[i] <= 'Z')
  {
    var s := StringOr(Get(q, "type"));
    assert forall i :: 0 <= i < |s| ==> Lower(s)[i] == LowerChar(s[i]);
    Lower(s)
  }

  /** The tags that select a multiple-choice question. */
  predicate IsMultipleChoiceTag(t: string) {
    t == "multiple-choice" || t == "multiplechoice" || t == "mcq"
  }

  /** The matching test: the `matching` tag, or an `items` array beside a `matches` or a `rightItems` array. */
  predicate LooksLikeMatching(q: Json) {
    TypeTag(q) == "matching" ||
    (IsArray(Get(q, "items")) && (IsArray(Get(q, "matches")) || IsArray(Get(q, "rightItems"))))
  }

  /** `Number.isFinite(q.points) ? Number(q.points) : 1`: only a number is kept, nothing is coerced. */
  function Points(q: Json): (r: int)
    ensures Get(q, "points").Some? && Get(q, "points").value.JNumber? ==> r == Get(q, "points").value.n
    ensures !(Get(q, "points").Some? && Get(q, "points").value.JNumber?) ==> r == 1
  {
    match Get(q, "points")
    case Some(JNumber(n)) => n
    case _ => 1
  }

  /** `typeof q.explanation === 'string' ? q.explanation : undefined`. */
  function Explanation(q: Json): (r: Option<string>)
    ensures r.Some? <==> Get(q, "explanation").Some? && Get(q, "explanation").value.JString?
    ensures r.Some? ==> Get(q, "explanation") == Some(JString(r.value))
  {
    match Get(q, "explanation")
    case Some(JString(s)) => Some(s)
    case _ => None
  }

  /** `Number(q.id)` when it is truthy (neither NaN nor 0): the id an item carries itself. */
  function OwnId(q: Json): (r: Option<int>)
    ensures r.Some? <==> ToNumber(Get(q, "id")).Some? && ToNumber(Get(q, "id")).value != 0
    ensures r.Some? ==> r == ToNumber(Get(q, "id")) && r.value != 0
    ensures Get(q, "id").None? ==> r.None?
    ensures Get(q, "id").Some? && Get(q, "id").value.JNumber? && Get(q, "id").value.n != 0 ==>
      r == Some(Get(q, "id").value.n)
  {
    var n := ToNumber(Get(q, "id"));
    if n.Some? && n.value != 0 then n else None
  }

  /** `options`, else `choices`, else nothing, each element passed through `String`. */
  function Options(q: Json): (r: seq<string>)
    ensures IsArray(Get(q, "options")) ==> r == Strings(Elements(Get(q, "options")))
    ensures !IsArray(Get(q, "options")) && IsArray(Get(q, "choices")) ==> r == Strings(Elements(Get(q, "choices")))
    ensures !IsArray(Get(q, "options")) && !IsArray(Get(q, "choices")) ==> r == []
  {
    if IsArray(Get(q, "options")) then Strings(Elements(Get(q, "options")))
    else if IsArray(Get(q, "choices")) then Strings(Elements(Get(q, "choices")))
    else []
  }

  /**
   * `correctIndex` survives only when it is an integer within the options;
   * `Number.isInteger` does not coerce, so a numeric string is dropped.
   */
  function CorrectIndex(q: Json, options: seq<string>): (r: Option<int>)
    ensures r.Some? <==> Get(q, "correctIndex").Some? && Get(q, "correctIndex").value.JNumber? &&
                         0 <= Get(q, "correctIndex").value.n < |options|
    ensures r.Some? ==> Get(q, "correctIndex") == Some(JNumber(r.value))
  {
    match Get(q, "correctIndex")
    case Some(JNumber(k)) => if 0 <= k < |options| then Some(k) else None
    case _ => None
  }

  /**
   * One element of `pairs`: an object with both `left` and `right`, or an
   * array of at least two elements; anything else is skipped.
   */
  function PairOf(p: Json): (r: Option<(string, string)>)
    ensures p.JObject? && "left" in p.fields && "right" in p.fields ==>
      r == Some((ToStr(p.fields["left"]), ToStr(p.fields["right"])))
    ensures !(p.JObject? && "left" in p.fields && "right" in p.fields) && p.JArray? && |p.items| >= 2 ==>
      r == Some((ToStr(p.items[0]), ToStr(p.items[1])))
    ensures r.Some? ==> (p.JObject? && "left" in p.fields && "right" in p.fields) || (p.JArray? && |p.items| >= 2)
  {
    if p.JObject? && "left" in p.fields && "right" in p.fields then
      Some((ToStr(p.fields["left"]), ToStr(p.fields["right"])))
    else if p.JArray? && |p.items| >= 2 then
      Some((ToStr(p.items[0]), ToStr(p.items[1])))
    else None
  }

  /** The number of usable elements of `pairs`. */
  function UsablePairs(ps: seq<Json>): nat
    decreases |ps|
  {
    if ps == [] then 0 else UsablePairs(ps[..|ps| - 1]) + (if PairOf(ps[|ps| - 1]).Some? then 1 else 0)
  }

  /** The left and right lists the `forEach` over `pairs` builds, one entry per usable pair. */
  function PairLists(ps: seq<Json>): (r: (seq<string>, seq<string>))
    ensures |r.0| == |r.1| == UsablePairs(ps)
    decreases |ps|
  {
    if ps == [] then ([], [])
    else
      var prev := PairLists(ps[..|ps| - 1]);
      match PairOf(ps[|ps| - 1])
      case Some(lr) => (prev.0 + [lr.0], prev.1 + [lr.1])
      case None => prev
  }

  /** The `forEach` that pushes onto `leftItems` and `rightItems`. */
  method CollectPairs(ps: seq<Json>) returns (leftItems: seq<string>, rightItems: seq<string>)
    ensures (leftItems, rightItems) == PairLists(ps)
    ensures |leftItems| == |rightItems|
  {
    leftItems, rightItems := [], [];
    for i := 0 to |ps|
      invariant (leftItems, rightItems) == PairLists(ps[..i])
    {
      var p := ps[i];
      assert ps[..i + 1][..i] == ps[..i];
      if p.JObject? && "left" in p.fields && "right" in p.fields {
        leftItems := leftItems + [ToStr(p.fields["left"])];
        rightItems := rightItems + [ToStr(p.fields["right"])];
      } else if p.JArray? && |p.items| >= 2 {
        leftItems := leftItems + [ToStr(p.items[0])];
        rightItems := rightItems + [ToStr(p.items[1])];
      }
    }
    assert ps[..|ps|] == ps;
  }

  /** The left and right lists of a matching item: `items`/`matches`, else `leftItems`/`rightItems`, else `pairs`. */
  function MatchLists(q: Json): (r: (seq<string>, seq<string>))
    ensures IsArray(Get(q, "items")) && IsArray(Get(q, "matches")) ==>
      r == (Strings(Elements(Get(q, "items"))), Strings(Elements(Get(q, "matches"))))
    ensures (!(IsArray(Get(q, "items")) && IsArray(Get(q, "matches"))) &&
             IsArray(Get(q, "leftItems")) && IsArray(Get(q, "rightItems"))) ==>
      r == (Strings(Elements(Get(q, "leftItems"))), Strings(Elements(Get(q, "rightItems"))))
    ensures (!(IsArray(Get(q, "items")) && IsArray(Get(q, "matches"))) &&
             !(IsArray(Get(q, "leftItems")) && IsArray(Get(q, "rightItems"))) && IsArray(Get(q, "pairs"))) ==>
      r == PairLists(Elements(Get(q, "pairs"))) && |r.0| == |r.1|
    ensures (!(IsArray(Get(q, "items")) && IsArray(Get(q, "matches"))) &&
             !(IsArray(Get(q, "leftItems")) && IsArray(Get(q, "rightItems"))) && !IsArray(Get(q, "pairs"))) ==>
      r == ([], [])
  {
    if IsArray(Get(q, "items")) && IsArray(Get(q, "matches")) then
      (Strings(Elements(Get(q, "items"))), Strings(Elements(Get(q, "matches"))))
    else if IsArray(Get(q, "leftItems")) && IsArray(Get(q, "rightItems")) then
      (Strings(Elements(Get(q, "leftItems"))), Strings(Elements(Get(q, "rightItems"))))
    else if IsArray(Get(q, "pairs")) then
      PairLists(Elements(Get(q, "pairs")))
    else ([], [])
  }

  /** `Number(n)` is an integer in `[0, bound)`. */
  predicate IndexBelow(n: Option<int>, bound: int) {
    n.Some? && 0 <= n.value < bound
  }

  /**
   * `correctMatches` is all or nothing: kept, coerced by `Number`, only when
   * it has one entry per left item and every entry points into the right
   * items; otherwise it is dropped as a whole.
   */
  function CorrectMatches(q: Json, left: seq<string>, right: seq<string>): (r: Option<seq<int>>)
    ensures r.Some? <==> (IsArray(Get(q, "correctMatches")) &&
      |Elements(Get(q, "correctMatches"))| == |left| &&
      forall k :: 0 <= k < |left| ==> IndexBelow(ToNumber(Some(Elements(Get(q, "correctMatches"))[k])), |right|))
    ensures r.Some? ==> ValidMatches(r.value, left, right)
    ensures r.Some? ==> forall k :: 0 <= k < |r.value| ==>
      Some(r.value[k]) == ToNumber(Some(Elements(Get(q, "correctMatches"))[k]))
  {
    if !IsArray(Get(q, "correctMatches")) then None
    else
      var cm := Elements(Get(q, "correctMatches"));
      if |cm| == |left| && forall k :: 0 <= k < |cm| ==> IndexBelow(ToNumber(Some(cm[k])), |right|) then
        Some(seq(|cm|, k requires 0 <= k < |cm| && IndexBelow(ToNumber(Some(cm[k])), |right|) =>
          ToNumber(Some(cm[k])).value))
      else None
  }

  /** `Number(q.answerBoxes)` when it is positive, else 1. */
  function AnswerBoxes(q: Json): (r: int)
    ensures r >= 1
    ensures ToNumber(Get(q, "answerBoxes")).Some? && ToNumber(Get(q, "answerBoxes")).value > 0 ==>
      r == ToNumber(Get(q, "answerBoxes")).value
    ensures ToNumber(Get(q, "answerBoxes")).None? || ToNumber(Get(q, "answerBoxes")).value <= 0 ==> r == 1
  {
    match ToNumber(Get(q, "answerBoxes"))
    case Some(n) => if n > 0 then n else 1
    case None => 1
  }

  /** `expectedAnswers` passed through `String` when it is an array. */
  function ExpectedAnswers(q: Json): (r: Option<seq<string>>)
    ensures r.Some? <==> IsArray(Get(q, "expectedAnswers"))
    ensures r.Some? ==> r.value == Strings(Elements(Get(q, "expectedAnswers")))
  {
    if IsArray(Get(q, "expectedAnswers")) then Some(Strings(Elements(Get(q, "expectedAnswers")))) else None
  }

  /** The question one non-null item becomes, once its id is settled. */
  function NormalizeItem(q: Json, id: int): (r: Question)
    ensures r.id == id && TypeOf(r) in AllTypes && WellFormed(r)
  {
    var text := StringOr(Get(q, "text"));
    if IsMultipleChoiceTag(TypeTag(q)) then
      var options := Options(q);
      Question(id, text, Points(q), Explanation(q), MultipleChoiceBody(options, CorrectIndex(q, options)))
    else if LooksLikeMatching(q) then
      var lists := MatchLists(q);
      Question(id, text, Points(q), Explanation(q),
        MatchingBody(lists.0, lists.1, CorrectMatches(q, lists.0, lists.1)))
    else
      Question(id, text, Points(q), Explanation(q), WrittenBody(AnswerBoxes(q), ExpectedAnswers(q)))
  }

  /**
   * Each field of the question comes from its own helper: the text, points
   * and explanation for every type, then the options and key, the left and
   * right lists and key, or the boxes and sample answers.
   */
  lemma NormalizeItemFields(q: Json, id: int)
    ensures var r := NormalizeItem(q, id);
      r.text == StringOr(Get(q, "text")) && r.points == Points(q) && r.explanation == Explanation(q)
    ensures NormalizeItem(q, id).body.MultipleChoiceBody? ==>
      NormalizeItem(q, id).body == MultipleChoiceBody(Options(q), CorrectIndex(q, Options(q)))
    ensures NormalizeItem(q, id).body.MatchingBody? ==>
      NormalizeItem(q, id).body == MatchingBody(MatchLists(q).0, MatchLists(q).1,
        CorrectMatches(q, MatchLists(q).0, MatchLists(q).1))
    ensures NormalizeItem(q, id).body.WrittenBody? ==>
      NormalizeItem(q, id).body == WrittenBody(AnswerBoxes(q), ExpectedAnswers(q))
  {
  }

  /**
   * The `pairs` lists in order: the usable pair at position `i` of `pairs`
   * supplies entry `k` of both lists, where `k` is the number of usable
   * pairs before it.
   */
  lemma {:induction false} PairListsAt(ps: seq<Json>, i: nat)
    requires i < |ps| && PairOf(ps[i]).Some?
    ensures UsablePairs(ps[..i]) < UsablePairs(ps)
    ensures PairLists(ps).0[UsablePairs(ps[..i])] == PairOf(ps[i]).value.0
    ensures PairLists(ps).1[UsablePairs(ps[..i])] == PairOf(ps[i]).value.1
    decreases |ps|
  {
    var init := ps[..|ps| - 1];
    if i == |ps| - 1 {
      assert ps[..i] == init;
    } else {
      assert init[..i] == ps[..i];
      PairListsAt(init, i);
    }
  }

  /** The number of items among `xs` without an id of their own, so numbered by the counter. */
  function Fallbacks(xs: seq<Json>, ownId: Json -> Option<int>): nat
    decreases |xs|
  {
    if xs == [] then 0 else Fallbacks(xs[..|xs| - 1], ownId) + (if ownId(xs[|xs| - 1]).None? then 1 else 0)
  }

  /** The counter moves past item `i` exactly when that item has no id of its own. */
  lemma FallbacksStep(arr: seq<Json>, i: nat, ownId: Json -> Option<int>)
    requires i < |arr|
    ensures Fallbacks(arr[..i + 1], ownId) == Fallbacks(arr[..i], ownId) + (if ownId(arr[i]).None? then 1 else 0)
  {
    assert arr[..i + 1][..i] == arr[..i];
  }

  /** The id of item `i`: its own, or one more than the number of counter ids handed out before it. */
  function ItemId(arr: seq<Json>, i: nat, ownId: Json -> Option<int>): int
    requires i < |arr|
  {
    match ownId(arr[i])
    case Some(n) => n
    case None => 1 + Fallbacks(arr[..i], ownId)
  }

  /** The items `normalizeQuestions` works on: the argument when it is an array, else none. */
  function ItemsOf(raw: Json): seq<Json> {
    if raw.JArray? then raw.items else []
  }

  /**
   * `arr.map` over the first `n` items with the `nextId` counter: each item
   * is converted by `item` once its id is settled.
   */
  function MapNumbered<T>(arr: seq<Json>, n: nat, ownId: Json -> Option<int>, item: (Json, int) -> T): (r: seq<T>)
    requires n <= |arr|
    ensures |r| == n
  {
    if n == 0 then [] else MapNumbered(arr, n - 1, ownId, item) + [item(arr[n - 1], ItemId(arr, n - 1, ownId))]
  }

  /** Position `k` holds what item `k` becomes. */
  lemma {:induction false} MapNumberedAt<T>(arr: seq<Json>, n: nat, ownId: Json -> Option<int>, item: (Json, int) -> T, k: nat)
    requires k < n <= |arr|
    ensures MapNumbered(arr, n, ownId, item)[k] == item(arr[k], ItemId(arr, k, ownId))
    decreases n
  {
    if k < n - 1 {
      MapNumberedAt(arr, n - 1, ownId, item, k);
      assert MapNumbered(arr, n, ownId, item)[k] == MapNumbered(arr, n - 1, ownId, item)[k];
    }
  }

  /** What `normalizeQuestions(raw)` returns, or the error it throws. */
  function Normalized(raw: Json): (r: Result<seq<Question>>)
    ensures r.Failure? <==> JNull in ItemsOf(raw)
    ensures r.Failure? ==> r.error == NullItemError
    ensures r.Success? ==> |r.value| == |ItemsOf(raw)|
  {
    var arr := ItemsOf(raw);
    if JNull in arr then Failure(NullItemError) else Success(MapNumbered(arr, |arr|, OwnId, NormalizeItem))
  }

  /**
   * The `arr.map` of `normalizeQuestions` with its running `nextId` counter:
   * each item's id is settled (`Number(q.id) || nextId++`) and the item is
   * converted by `item`; reading a field of a `null` item stops the map.
   */
  method MapWithCounter<T>(arr: seq<Json>, ownId: Json -> Option<int>, item: (Json, int) -> T)
    returns (r: Option<seq<T>>)
    ensures r.None? <==> JNull in arr
    ensures r.Some? ==> r.value == MapNumbered(arr, |arr|, ownId, item)
  {
    var nextId := 1;
    var out: seq<T> := [];
    for i := 0 to |arr|
      invariant forall k :: 0 <= k < i ==> !arr[k].JNull?
      invariant nextId == 1 + Fallbacks(arr[..i], ownId)
      invariant out == MapNumbered(arr, i, ownId, item)
    {
      var q := arr[i];
      if q.JNull? {
        assert arr[i] == JNull;
        return None;
      }
      FallbacksStep(arr, i, ownId);
      var id: int;
      var own := ownId(q);
      if own.Some? {
        id := own.value;
      } else {
        id := nextId;
        nextId := nextId + 1;
      }
      out := out + [item(q, id)];
    }
    assert forall q :: q in arr ==> !q.JNull?;
    r := Some(out);
  }

  /** `normalizeQuestions(raw)`: a non-array argument is treated as no items. */
  method NormalizeQuestions(raw: Json) returns (r: Result<seq<Question>>)
    ensures r == Normalized(raw)
  {
    var arr := if raw.JArray? then raw.items else [];
    var out := MapWithCounter(arr, OwnId, NormalizeItem);
    if out.None? {
      r := Failure(NullItemError);
    } else {
      r := Success(out.value);
    }
  }

  /**
   * The map throws exactly when some item is `null`; otherwise there is one
   * question per item, each of a generated type and well formed.
   */
  lemma NormalizedOutcome(raw: Json)
    ensures Normalized(raw).Failure? <==> JNull in ItemsOf(raw)
    ensures Normalized(raw).Success? ==> |Normalized(raw).value| == |ItemsOf(raw)|
    ensures Normalized(raw).Success? ==> forall q :: q in Normalized(raw).value ==> TypeOf(q) in AllTypes && WellFormed(q)
  {
    var arr := ItemsOf(raw);
    if JNull !in arr {
      var out := MapNumbered(arr, |arr|, OwnId, NormalizeItem);
      forall q | q in out ensures TypeOf(q) in AllTypes && WellFormed(q) {
        var k :| 0 <= k < |out| && out[k] == q;
        MapNumberedAt(arr, |arr|, OwnId, NormalizeItem, k);
      }
    }
  }

  /** Each counter id handed out before position `i` is also counted at any later position `j`. */
  lemma {:induction false} FallbacksGrow(arr: seq<Json>, i: nat, j: nat, ownId: Json -> Option<int>)
    requires i < j <= |arr|
    ensures Fallbacks(arr[..i], ownId) + (if ownId(arr[i]).None? then 1 else 0) <= Fallbacks(arr[..j], ownId)
    decreases j - i
  {
    FallbacksStep(arr, i, ownId);
    if j > i + 1 {
      FallbacksGrow(arr, i + 1, j, ownId);
    }
  }

  /**
   * Items without an id of their own are numbered 1, 2, 3, ... in list
   * order by the counter, which moves only for them; every other item keeps
   * the number `Number(q.id)` gives it.
   */
  lemma CounterIds(raw: Json, i: nat, j: nat)
    requires Normalized(raw).Success? && i < j < |ItemsOf(raw)|
    ensures OwnId(ItemsOf(raw)[i]).None? ==> Normalized(raw).value[i].id == 1 + Fallbacks(ItemsOf(raw)[..i], OwnId)
    ensures OwnId(ItemsOf(raw)[i]).Some? ==> Normalized(raw).value[i].id == OwnId(ItemsOf(raw)[i]).value
    ensures OwnId(ItemsOf(raw)[i]).None? && OwnId(ItemsOf(raw)[j]).None? ==>
      Normalized(raw).value[i].id < Normalized(raw).value[j].id
    ensures OwnId(ItemsOf(raw)[0]).None? ==> Normalized(raw).value[0].id == 1
  {
    var arr := ItemsOf(raw);
    FallbacksGrow(arr, i, j, OwnId);
    assert arr[..0] == [];
    MapNumberedAt(arr, |arr|, OwnId, NormalizeItem, i);
    MapNumberedAt(arr, |arr|, OwnId, NormalizeItem, j);
    MapNumberedAt(arr, |arr|, OwnId, NormalizeItem, 0);
  }

  /** An item's question type follows its tag, with unknown tags falling back to written. */
  lemma Classification(q: Json, id: int)
    ensures TypeOf(NormalizeItem(q, id)) == MultipleChoice <==> IsMultipleChoiceTag(TypeTag(q))
    ensures TypeOf(NormalizeItem(q, id)) == Matching <==> !IsMultipleChoiceTag(TypeTag(q)) && LooksLikeMatching(q)
    ensures TypeOf(NormalizeItem(q, id)) == Written <==> !IsMultipleChoiceTag(TypeTag(q)) && !LooksLikeMatching(q)
  {
  }

  /**
   * An illustration of `Classification` and `Options` together: the tag is
   * compared case-insensitively, so `MCQ` selects a multiple-choice question,
   * and `choices` stands in for a missing `options`.
   */
  lemma UpperCaseTagAndChoices(id: int)
    ensures NormalizeItem(JObject(map["type" := JString("MCQ"), "choices" := JArray([JString("a"), JNumber(2)])]), id)
      == Question(id, "", 1, None, MultipleChoiceBody(["a", "2"], None))
  {
    var q := JObject(map["type" := JString("MCQ"), "choices" := JArray([JString("a"), JNumber(2)])]);
    assert TypeTag(q) == "mcq";
    assert Options(q) == ["a", "2"];
  }

  /** An illustration of the defaults: an empty object is a written question with no text, one point and one box. */
  lemma EmptyItemDefaults(id: int)
    ensures NormalizeItem(JObject(map[]), id) == Question(id, "", 1, None, WrittenBody(1, None))
  {
    assert TypeTag(JObject(map[])) == "";
  }

  /**
   * A multiple-choice answer key is kept exactly when it is a number inside
   * the options, so every kept key can be followed.
   */
  lemma CorrectIndexKept(q: Json, id: int, k: int)
    requires NormalizeItem(q, id).body.MultipleChoiceBody?
    ensures NormalizeItem(q, id).body.correctIndex == Some(k) <==>
      Get(q, "correctIndex") == Some(JNumber(k)) && 0 <= k < |NormalizeItem(q, id).body.options|
  {
  }

  /**
   * The pairs form always gives left and right lists of the same length,
   * one entry per usable pair; a `correctMatches` kept for such a question
   * has an entry for each of them.
   */
  lemma PairsBalanced(q: Json, id: int)
    requires NormalizeItem(q, id).body.MatchingBody?
    requires !IsArray(Get(q, "items")) || !IsArray(Get(q, "matches"))
    requires !IsArray(Get(q, "leftItems")) || !IsArray(Get(q, "rightItems"))
    requires IsArray(Get(q, "pairs"))
    ensures |NormalizeItem(q, id).body.leftItems| == |NormalizeItem(q, id).body.rightItems|
      == UsablePairs(Elements(Get(q, "pairs")))
    ensures NormalizeItem(q, id).body.correctMatches.Some? ==>
      |NormalizeItem(q, id).body.correctMatches.value| == UsablePairs(Elements(Get(q, "pairs")))
  {
  }
}

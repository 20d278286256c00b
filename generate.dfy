/**
 * `generateQuizQuestions`: ask the model once, retry once with a
 * uniqueness reminder when the reply does not parse, pick the list out of
 * the parsed value, normalise it, keep the allowed types, and either enforce
 * the requested count or cut and renumber. The fence strip of `callOnce`
 * is lifted out as a pure string function. The network and `JSON.parse` are
 * oracles passed in as functions.
 */
module Generate {
  import opened Basics
  import opened Text
  import opened Json
  import opened Types
  import opened Fillers
  import opened ExactCount
  import opened Normalize

  /* ------------------------------ Fence strip ------------------------------ */

  const Fence: string := "```"

  /** `replace(/^```(?:json)?/i, '')` on a string that starts with a fence. */
  function DropOpeningFence(t: string): (r: string)
    requires Fence <= t
    ensures |r| <= |t| - 3
  {
    var u := t[3..];
    if |u| >= 4 && Lower(u[..4]) == "json" then u[4..] else u
  }

  /** `replace(/```$/i, '')`: one fence at the very end is removed. */
  function DropClosingFence(u: string): (r: string)
    ensures |r| <= |u|
  {
    if |u| >= 3 && u[|u| - 3..] == Fence then u[..|u| - 3] else u
  }

  /**
   * The post-processing of the model's text in `callOnce`: trim, and when the
   * text starts with a code fence drop the opening fence (with an optional
   * `json` tag, in any case), a closing fence at the very end, and trim again.
   */
  function StripFences(output: string): (r: string)
    ensures |r| <= |output|
  {
    var t := Trim(output);
    if Fence <= t then Trim(DropClosingFence(DropOpeningFence(t))) else t
  }

  /** The stripped text is trimmed: empty, or starting and ending with a non-whitespace character. */
  lemma StripFencesTrimmed(output: string)
    ensures var r := StripFences(output);
      r == [] || (!IsSpace(r[0]) && !IsSpace(r[|r| - 1]))
  {
    var t := Trim(output);
    TrimSpec(output);
    if Fence <= t {
      TrimSpec(DropClosingFence(DropOpeningFence(t)));
    }
  }

  /** Text that does not start with a fence once trimmed is only trimmed. */
  lemma StripFencesUnfenced(output: string)
    requires !(Fence <= Trim(output))
    ensures StripFences(output) == Trim(output)
  {
  }

  /** The opening fence goes with its tag; without a tag, text starting with whitespace is kept whole. */
  lemma OpeningFenceDropped(tag: string, rest: string)
    requires tag == [] || (|tag| == 4 && Lower(tag) == "json")
    requires tag == [] ==> rest != [] && IsSpace(rest[0])
    ensures DropOpeningFence(Fence + tag + rest) == rest
  {
    var t := Fence + tag + rest;
    assert t[3..] == tag + rest;
    if tag == [] {
      assert |rest| >= 4 ==> Lower(rest[..4])[0] == LowerChar(rest[0]) == rest[0];
    } else {
      assert (tag + rest)[..4] == tag;
    }
  }

  /** A closing fence at the very end goes. */
  lemma ClosingFenceDropped(u: string)
    ensures DropClosingFence(u + Fence) == u
  {
    var v := u + Fence;
    assert v[|v| - 3..] == Fence;
  }

  /**
   * A fenced block comes back as exactly its body: whatever whitespace
   * surrounds the block and its body, and whether the fence carries a
   * `json` tag in any case or none.
   */
  lemma StripFencesRoundTrip(before: string, tag: string, open: string, body: string, close: string, after: string)
    requires AllSpace(before) && AllSpace(after) && AllSpace(close)
    requires AllSpace(open) && open != []
    requires tag == [] || (|tag| == 4 && Lower(tag) == "json")
    requires body != [] ==> !IsSpace(body[0]) && !IsSpace(body[|body| - 1])
    ensures StripFences(before + Fence + tag + open + body + close + Fence + after) == body
  {
    var inner := open + body + close;
    var t := Fence + tag + (inner + Fence);
    assert before + Fence + tag + open + body + close + Fence + after == before + t + after;
    assert t[0] == '`' && t[|t| - 1] == '`';
    TrimExact(before, t, after);
    assert Fence <= t;
    assert (inner + Fence)[0] == open[0];
    OpeningFenceDropped(tag, inner + Fence);
    ClosingFenceDropped(inner);
    TrimExact(open, body, close);
  }

  /* ------------------------------ Oracles ------------------------------ */

  /**
   * What the endpoint does with one request: it fails (a network error or a
   * status that is not ok, both thrown by `callOnce`), or it answers with a
   * body whose `content` may be absent.
   */
  datatype Response = Failed | Answered(content: Option<string>)

  /** `callOnce`: the cleaned text of the reply, or `None` for the error it throws. */
  function CallOnce(resp: Response): (r: Option<string>)
    ensures r.None? <==> resp.Failed?
  {
    match resp
    case Failed => None
    case Answered(content) => Some(StripFences(content.GetOr("[]")))
  }

  const RetryReminder: string :=
    "\n\nIMPORTANT: All questions must be UNIQUE. Do not reuse the same stem or template. Vary phrasing, subtopics, and structure. Return ONLY a JSON array."

  /** The prompt of the single retry: the original prompt followed by the uniqueness reminder. */
  function RetryPrompt(prompt: string): (r: string)
    ensures prompt <= r && r[|prompt|..] == RetryReminder
  {
    prompt + RetryReminder
  }

  /**
   * The value the two attempts leave in `parsed`. A failed first call leaves
   * the text `[]`; only a first text that does not parse leads to the retry,
   * and a retry that fails or does not parse leaves the empty list.
   */
  function ParsedReply(prompt: string, send: string -> Response, parse: string -> Option<Json>): (r: Json)
    ensures parse(CallOnce(send(prompt)).GetOr("[]")) == Some(r) ||
      (CallOnce(send(RetryPrompt(prompt))).Some? && parse(CallOnce(send(RetryPrompt(prompt))).value) == Some(r)) ||
      r == JArray([])
  {
    var raw := CallOnce(send(prompt)).GetOr("[]");
    match parse(raw)
    case Some(v) => v
    case None =>
      match CallOnce(send(RetryPrompt(prompt)))
      case None => JArray([])
      case Some(retried) => parse(retried).GetOr(JArray([]))
  }

  /** A first reply that parses is used as is, and nothing is retried. */
  lemma NoRetryWhenParsed(prompt: string, send: string -> Response, parse: string -> Option<Json>)
    requires parse(CallOnce(send(prompt)).GetOr("[]")).Some?
    ensures ParsedReply(prompt, send, parse) == parse(CallOnce(send(prompt)).GetOr("[]")).value
  {
  }

  /**
   * When the first reply does not parse, the value comes from the retry with
   * the reminder when that parses, and is the empty list otherwise.
   */
  lemma RetryOutcome(prompt: string, send: string -> Response, parse: string -> Option<Json>)
    requires parse(CallOnce(send(prompt)).GetOr("[]")).None?
    ensures var retried := CallOnce(send(RetryPrompt(prompt)));
      (retried.Some? && parse(retried.value).Some? ==> ParsedReply(prompt, send, parse) == parse(retried.value).value) &&
      (retried.None? || parse(retried.value).None? ==> ParsedReply(prompt, send, parse) == JArray([]))
  {
  }

  /* ------------------------------ Options ------------------------------ */

  /** `GenerateOptions`; an absent `allowedTypes` is the empty list. */
  datatype GenerateOptions = GenerateOptions(
    count: Option<int>,
    allowedTypes: seq<AllowedType>,
    enforceExactCount: Option<bool>,
    topic: Option<string>)

  /** `Math.max(1, Number(opts.count ?? 5))`. */
  function EffectiveCount(o: GenerateOptions): (r: int)
    ensures r >= 1
    ensures r == if o.count.Some? then Max(1, o.count.value) else 5
  {
    Max(1, o.count.GetOr(5))
  }

  /** The caller's types, or all three when none are given. */
  function EffectiveAllowed(o: GenerateOptions): (r: seq<AllowedType>)
    ensures |r| > 0
    ensures o.allowedTypes != [] ==> r == o.allowedTypes
    ensures o.allowedTypes == [] ==> forall t: AllowedType :: t in r
  {
    if |o.allowedTypes| > 0 then o.allowedTypes else AllTypes
  }

  /** `(opts.topic || 'this subject')`: an absent or empty topic becomes the default. */
  function EffectiveTopic(o: GenerateOptions): (r: string)
    ensures r != []
    ensures o.topic.Some? && o.topic.value != [] ==> r == o.topic.value
    ensures o.topic.None? || o.topic.value == [] ==> r == "this subject"
  {
    if o.topic.Some? && o.topic.value != [] then o.topic.value else "this subject"
  }

  /** `opts.enforceExactCount !== false`. */
  predicate Enforce(o: GenerateOptions)
    ensures o.enforceExactCount.None? ==> Enforce(o)
    ensures o.enforceExactCount.Some? ==> (Enforce(o) <==> o.enforceExactCount.value)
  {
    o.enforceExactCount != Some(false)
  }

  /* ------------------------------ Post-parse ------------------------------ */

  /** The list in the parsed value: the value itself, else its `items`, else its `questions`, else none. */
  function TopLevelItems(parsed: Json): (r: seq<Json>)
    ensures parsed.JArray? ==> r == parsed.items
    ensures !parsed.JArray? && IsArray(Get(parsed, "items")) ==> r == Elements(Get(parsed, "items"))
    ensures !parsed.JArray? && !IsArray(Get(parsed, "items")) && IsArray(Get(parsed, "questions")) ==>
      r == Elements(Get(parsed, "questions"))
    ensures !parsed.JArray? && !IsArray(Get(parsed, "items")) && !IsArray(Get(parsed, "questions")) ==> r == []
  {
    if parsed.JArray? then parsed.items
    else if IsArray(Get(parsed, "items")) then Elements(Get(parsed, "items"))
    else if IsArray(Get(parsed, "questions")) then Elements(Get(parsed, "questions"))
    else []
  }

  /**
   * Illustrations of `TopLevelItems` on objects: with both lists `items`
   * wins, a non-array `items` falls through to `questions`, and a value with
   * neither gives none.
   */
  lemma TopLevelItemsShapes(xs: seq<Json>, ys: seq<Json>, s: string)
    ensures TopLevelItems(JObject(map["items" := JArray(xs), "questions" := JArray(ys)])) == xs
    ensures TopLevelItems(JObject(map["questions" := JArray(ys)])) == ys
    ensures TopLevelItems(JObject(map["items" := JString(s), "questions" := JArray(ys)])) == ys
    ensures TopLevelItems(JString(s)) == []
  {
    var both := JObject(map["items" := JArray(xs), "questions" := JArray(ys)]);
    assert Get(both, "items") == Some(JArray(xs));
    var mixed := JObject(map["items" := JString(s), "questions" := JArray(ys)]);
    assert Get(mixed, "items") == Some(JString(s));
    assert Get(mixed, "questions") == Some(JArray(ys));
  }

  /** `normalized.filter(q => allowedTypes.includes(q.type))`. */
  function FilterAllowed(qs: seq<Question>, allowed: seq<AllowedType>): (r: seq<Question>)
    ensures |r| <= |qs|
    decreases |qs|
  {
    if qs == [] then []
    else
      var rest := FilterAllowed(qs[..|qs| - 1], allowed);
      if TypeOf(qs[|qs| - 1]) in allowed then rest + [qs[|qs| - 1]] else rest
  }

  /** The filter keeps exactly the questions of an allowed type. */
  lemma {:induction false} FilterAllowedSpec(qs: seq<Question>, allowed: seq<AllowedType>)
    ensures forall q :: q in FilterAllowed(qs, allowed) <==> q in qs && TypeOf(q) in allowed
    decreases |qs|
  {
    if qs != [] {
      var p := qs[..|qs| - 1];
      FilterAllowedSpec(p, allowed);
      assert qs == p + [qs[|qs| - 1]];
    }
  }

  /** A list whose every type is allowed passes the filter unchanged. */
  lemma {:induction false} FilterAllowedKeepsAll(qs: seq<Question>, allowed: seq<AllowedType>)
    requires forall q :: q in qs ==> TypeOf(q) in allowed
    ensures FilterAllowed(qs, allowed) == qs
    decreases |qs|
  {
    if qs != [] {
      var p := qs[..|qs| - 1];
      assert forall q :: q in p ==> q in qs;
      FilterAllowedKeepsAll(p, allowed);
      assert qs == p + [qs[|qs| - 1]];
    }
  }

  /** Lines 276-296: from the parsed value to the returned list, or the error the normaliser throws. */
  function PostProcess(parsed: Json, o: GenerateOptions): (r: Result<seq<Question>>)
    ensures r.Failure? <==> JNull in TopLevelItems(parsed)
    ensures r.Success? ==> |r.value| <= EffectiveCount(o)
  {
    match Normalized(JArray(TopLevelItems(parsed)))
    case Failure(e) => Failure(e)
    case Success(normalized) =>
      var filtered := FilterAllowed(normalized, EffectiveAllowed(o));
      if Enforce(o) then Success(ExactCountOf(filtered, EffectiveCount(o), EffectiveAllowed(o), EffectiveTopic(o)))
      else Success(Reindex(filtered[..Min(EffectiveCount(o), |filtered|)]))
  }

  /** What `generateQuizQuestions(prompt, opts)` resolves to, or the error it rejects with. */
  function Generated(prompt: string, o: GenerateOptions, send: string -> Response, parse: string -> Option<Json>): Result<seq<Question>> {
    PostProcess(ParsedReply(prompt, send, parse), o)
  }

  /** The filtered, normalised questions a successful run works on. */
  function Filtered(parsed: Json, o: GenerateOptions): seq<Question>
    requires Normalized(JArray(TopLevelItems(parsed))).Success?
  {
    FilterAllowed(Normalized(JArray(TopLevelItems(parsed))).value, EffectiveAllowed(o))
  }

  /** The run fails exactly when one of the picked items is `null`. */
  lemma PostProcessFails(parsed: Json, o: GenerateOptions)
    ensures PostProcess(parsed, o).Failure? <==> JNull in TopLevelItems(parsed)
    ensures PostProcess(parsed, o).Failure? ==> PostProcess(parsed, o).error == NullItemError
  {
    NormalizedOutcome(JArray(TopLevelItems(parsed)));
  }

  /**
   * Enforcing the count gives exactly `max(1, count ?? 5)` questions numbered
   * 1..N: the first occurrences of the filtered questions, then fillers.
   */
  lemma PostProcessExactCount(parsed: Json, o: GenerateOptions)
    requires PostProcess(parsed, o).Success? && Enforce(o)
    ensures |PostProcess(parsed, o).value| == EffectiveCount(o)
    ensures DenseIds(PostProcess(parsed, o).value)
    ensures PostProcess(parsed, o).value == ExactCountOf(Filtered(parsed, o), EffectiveCount(o), EffectiveAllowed(o), EffectiveTopic(o))
  {
    NormalizedOutcome(JArray(TopLevelItems(parsed)));
    ExactCountLayout(Filtered(parsed, o), EffectiveCount(o), EffectiveAllowed(o), EffectiveTopic(o));
  }

  /**
   * Without enforcement the result is the first `min(count, |filtered|)`
   * filtered questions, numbered 1..N and otherwise unchanged.
   */
  lemma PostProcessSliced(parsed: Json, o: GenerateOptions)
    requires PostProcess(parsed, o).Success? && !Enforce(o)
    ensures |PostProcess(parsed, o).value| == Min(EffectiveCount(o), |Filtered(parsed, o)|)
    ensures DenseIds(PostProcess(parsed, o).value)
    ensures forall i :: 0 <= i < |PostProcess(parsed, o).value| ==>
      SameButId(PostProcess(parsed, o).value[i], Filtered(parsed, o)[i])
  {
    NormalizedOutcome(JArray(TopLevelItems(parsed)));
  }

  /**
   * Every returned question has one of the effective allowed types and keeps
   * the shape guarantees, on both output paths.
   */
  lemma PostProcessContainment(parsed: Json, o: GenerateOptions)
    requires PostProcess(parsed, o).Success?
    ensures forall q :: q in PostProcess(parsed, o).value ==> TypeOf(q) in EffectiveAllowed(o) && WellFormed(q)
  {
    var items := JArray(TopLevelItems(parsed));
    NormalizedOutcome(items);
    var allowed := EffectiveAllowed(o);
    var normalized := Normalized(items).value;
    var filtered := FilterAllowed(normalized, allowed);
    FilterAllowedSpec(normalized, allowed);
    assert forall q :: q in filtered ==> TypeOf(q) in allowed && WellFormed(q);
    if Enforce(o) {
      ExactCountContainment(filtered, EffectiveCount(o), allowed, EffectiveTopic(o));
    } else {
      var r := PostProcess(parsed, o).value;
      var cut := filtered[..Min(EffectiveCount(o), |filtered|)];
      forall q | q in r ensures TypeOf(q) in allowed && WellFormed(q) {
        var i :| 0 <= i < |r| && r[i] == q;
        assert SameButId(r[i], cut[i]);
        assert cut[i] in filtered;
      }
    }
  }

  /**
   * With the first call failing, the text `[]` parses to the empty list, so
   * an enforced run returns only fillers, one per position.
   */
  lemma FailedCallGivesFillers(prompt: string, o: GenerateOptions, send: string -> Response, parse: string -> Option<Json>)
    requires send(prompt).Failed? && parse("[]") == Some(JArray([])) && Enforce(o)
    ensures Generated(prompt, o, send, parse).Success?
    ensures var r := Generated(prompt, o, send, parse).value;
      |r| == EffectiveCount(o) &&
      forall i :: 0 <= i < |r| ==> r[i] == FillerAt(EffectiveAllowed(o), EffectiveTopic(o))(i)
  {
    var parsed := JArray([]);
    assert ParsedReply(prompt, send, parse) == parsed;
    assert TopLevelItems(parsed) == [];
    NormalizedOutcome(JArray([]));
    assert Filtered(parsed, o) == [];
    assert Dedup([], QuestionKey) == [];
    FillerAtNumbered(EffectiveAllowed(o), EffectiveTopic(o));
    PaddedShape([], EffectiveCount(o), FillerAt(EffectiveAllowed(o), EffectiveTopic(o)));
  }

  /** `generateQuizQuestions`, with the two calls and `JSON.parse` as oracles. */
  method GenerateQuizQuestions(prompt: string, o: GenerateOptions, send: string -> Response, parse: string -> Option<Json>)
    returns (r: Result<seq<Question>>)
    ensures r == Generated(prompt, o, send, parse)
  {
    var count := Max(1, o.count.GetOr(5));
    var allowedTypes := if |o.allowedTypes| > 0 then o.allowedTypes else AllTypes;
    var topic := if o.topic.Some? && o.topic.value != [] then o.topic.value else "this subject";
    var enforce := o.enforceExactCount != Some(false);

    var raw := CallOnce(send(prompt)).GetOr("[]");
    var parsed: Json;
    var first := parse(raw);
    if first.Some? {
      parsed := first.value;
    } else {
      var retried := CallOnce(send(RetryPrompt(prompt)));
      if retried.Some? && parse(retried.value).Some? {
        parsed := parse(retried.value).value;
      } else {
        parsed := JArray([]);
      }
    }

    var arr := TopLevelItems(parsed);
    var normalized := NormalizeQuestions(JArray(arr));
    if normalized.Failure? {
      return Failure(normalized.error);
    }
    var filtered := FilterAllowed(normalized.value, allowedTypes);
    if enforce {
      var questions := EnsureExactCount(filtered, count, allowedTypes, topic);
      r := Success(questions);
    } else {
      r := Success(Reindex(filtered[..Min(count, |filtered|)]));
    }
  }
}

/**
 * `ensureExactCount`: de-duplicate by a normalised text key (first
 * occurrence wins, blank keys are dropped), pad with fillers while short,
 * truncate when long, and number the result 1..N.
 */
module ExactCount {
  import opened Basics
  import opened Text
  import opened Types
  import opened Fillers

  /** The de-duplication key: whitespace runs collapsed, trimmed, lower-cased. */
  function Key(text: string): (r: string)
    ensures |r| <= |text|
  {
    Lower(Trim(CollapseWhitespace(text)))
  }

  /** A question's key is blank exactly when its text is blank, so only blank texts are dropped as such. */
  lemma KeyBlank(text: string)
    ensures Key(text) == [] <==> AllSpace(text)
  {
    CollapseBlank(text);
    TrimSpec(CollapseWhitespace(text));
  }

  /** The key is the same whether case is folded before or after the whitespace is tidied. */
  lemma KeyOfLower(text: string)
    ensures Key(text) == Trim(CollapseWhitespace(Lower(text)))
  {
    CollapseLower(text);
    TrimLower(CollapseWhitespace(text));
  }

  /** Texts that differ only in ASCII letter case have the same key. */
  lemma KeyFoldsCase(x: string, y: string)
    requires Lower(x) == Lower(y)
    ensures Key(x) == Key(y)
    ensures Key(Lower(x)) == Key(x)
  {
    KeyOfLower(x);
    KeyOfLower(y);
    KeyOfLower(Lower(x));
    LowerIdempotent(x);
  }

  /** Replacing a whitespace run inside a text by a single space leaves the key as it was. */
  lemma KeyCollapsesRuns(x: string, ws: string, y: string)
    requires ws != [] && AllSpace(ws)
    ensures Key(x + ws + y) == Key(x + " " + y)
  {
    CollapseRun(x, ws, y);
  }

  /**
   * A key has no upper-case ASCII letter, no whitespace at either end, and
   * no whitespace inside other than single spaces.
   */
  lemma KeyShape(text: string)
    ensures forall i :: 0 <= i < |Key(text)| ==> !('A' <= Key(text)[i] <= 'Z')
    ensures Key(text) != [] ==> !IsSpace(Key(text)[0]) && !IsSpace(Key(text)[|Key(text)| - 1])
    ensures SingleSpaced(Key(text))
  {
    var c := CollapseWhitespace(text);
    var t := Trim(c);
    var k := Key(text);
    forall i | 0 <= i < |k| ensures !('A' <= k[i] <= 'Z') {
      LowerCharSpace(t[i]);
    }
    TrimSpec(c);
    if k != [] {
      LowerCharSpace(t[0]);
      LowerCharSpace(t[|t| - 1]);
    }
    CollapseSingleSpaced(text);
    var s := TrimStart(c);
    SingleSpacedSlice(c, SpaceRunEnd(c, 0), |c|);
    SingleSpacedSlice(s, 0, SpaceRunStart(s, |s|));
    SingleSpacedLower(t);
  }

  /** The key keeps every character of the text that is not whitespace, lower-cased and in order. */
  lemma KeyKeepsContent(text: string)
    ensures NonSpace(Key(text)) == Lower(NonSpace(text))
  {
    var c := CollapseWhitespace(text);
    CollapseKeepsNonSpace(text);
    NonSpaceTrim(c);
    NonSpaceLower(Trim(c));
  }

  /** A text already in key form is its own key: its characters are kept, none merged away. */
  lemma KeyOfNormal(t: string)
    requires SingleSpaced(t)
    requires forall i :: 0 <= i < |t| ==> !('A' <= t[i] <= 'Z')
    requires t != [] ==> !IsSpace(t[0]) && !IsSpace(t[|t| - 1])
    ensures Key(t) == t
  {
    CollapseKeepsSingleSpaced(t);
    var e: string := [];
    assert e + t + e == t;
    TrimExact(e, t, e);
    LowerKeepsNoUpper(t);
  }

  /** Two different texts in key form have different keys, so their questions are both kept. */
  lemma KeysSeparateNormalTexts(x: string, y: string)
    requires SingleSpaced(x) && SingleSpaced(y) && x != y
    requires forall i :: 0 <= i < |x| ==> !('A' <= x[i] <= 'Z')
    requires forall i :: 0 <= i < |y| ==> !('A' <= y[i] <= 'Z')
    requires x != [] ==> !IsSpace(x[0]) && !IsSpace(x[|x| - 1])
    requires y != [] ==> !IsSpace(y[0]) && !IsSpace(y[|y| - 1])
    ensures Key(x) != Key(y)
  {
    KeyOfNormal(x);
    KeyOfNormal(y);
  }

  /** Every key is a fixed point: normalising a key again changes nothing. */
  lemma KeyIdempotent(text: string)
    ensures Key(Key(text)) == Key(text)
  {
    KeyShape(text);
    KeyOfNormal(Key(text));
  }

  /** The key the de-duplication compares. */
  function QuestionKey(q: Question): string {
    Key(q.text)
  }

  /** The keys of the elements of a list. */
  function KeysOf<T>(xs: seq<T>, key: T -> string): set<string> {
    set i | 0 <= i < |xs| :: key(xs[i])
  }

  /** The non-blank keys among the first `n` elements. */
  function KeysBefore<T>(xs: seq<T>, key: T -> string, n: nat): set<string>
    requires n <= |xs|
  {
    set j | 0 <= j < n && key(xs[j]) != [] :: key(xs[j])
  }

  /**
   * What the `seen`-set loop keeps of a list: an element survives when its
   * key is not blank and no element kept before it had that key.
   */
  function Dedup<T>(xs: seq<T>, key: T -> string): (r: seq<T>)
    ensures |r| <= |xs|
    decreases |xs|
  {
    if xs == [] then []
    else
      var d := Dedup(xs[..|xs| - 1], key);
      var x := xs[|xs| - 1];
      if key(x) != [] && key(x) !in KeysOf(d, key) then d + [x] else d
  }

  /** An independent reading of "first occurrence wins": no earlier element shares this one's key. */
  predicate IsFirstOccurrence<T>(xs: seq<T>, key: T -> string, i: nat)
    requires i < |xs|
  {
    key(xs[i]) != [] && forall j :: 0 <= j < i ==> key(xs[j]) != key(xs[i])
  }

  /** The first occurrences among the first `n` elements, in their original order. */
  function FirstOccurrences<T>(xs: seq<T>, key: T -> string, n: nat): seq<T>
    requires n <= |xs|
  {
    if n == 0 then []
    else FirstOccurrences(xs, key, n - 1) + (if IsFirstOccurrence(xs, key, n - 1) then [xs[n - 1]] else [])
  }

  lemma KeysOfAppend<T>(xs: seq<T>, x: T, key: T -> string)
    ensures KeysOf(xs + [x], key) == KeysOf(xs, key) + {key(x)}
  {
    var l := xs + [x];
    assert l[|xs|] == x;
    forall k | k in KeysOf(xs, key) ensures k in KeysOf(l, key) {
      var i :| 0 <= i < |xs| && k == key(xs[i]);
      assert l[i] == xs[i];
    }
  }

  /** Which elements are first occurrences does not depend on what comes after them. */
  lemma {:induction false} FirstOccurrencesOfPrefix<T>(xs: seq<T>, p: seq<T>, key: T -> string, m: nat)
    requires p <= xs && m <= |p|
    ensures FirstOccurrences(p, key, m) == FirstOccurrences(xs, key, m)
    decreases m
  {
    if m > 0 {
      FirstOccurrencesOfPrefix(xs, p, key, m - 1);
      assert IsFirstOccurrence(p, key, m - 1) == IsFirstOccurrence(xs, key, m - 1) by {
        assert forall j :: 0 <= j < m ==> p[j] == xs[j];
      }
    }
  }

  /** The non-blank keys before `n` do not depend on what comes after position `n`. */
  lemma KeysBeforePrefix<T>(xs: seq<T>, p: seq<T>, key: T -> string, n: nat)
    requires p <= xs && n <= |p|
    ensures KeysBefore(p, key, n) == KeysBefore(xs, key, n)
  {
    assert forall j :: 0 <= j < n ==> p[j] == xs[j];
  }

  /** One more element adds its key to the keys seen, unless the key is blank. */
  lemma KeysBeforeStep<T>(xs: seq<T>, key: T -> string, n: nat)
    requires n < |xs|
    ensures KeysBefore(xs, key, n + 1) == KeysBefore(xs, key, n) + (if key(xs[n]) != [] then {key(xs[n])} else {})
  {
  }

  /** An element is a first occurrence exactly when its key is non-blank and not among the keys before it. */
  lemma IsFirstOccurrenceIff<T>(xs: seq<T>, key: T -> string, i: nat)
    requires i < |xs|
    ensures IsFirstOccurrence(xs, key, i) <==> key(xs[i]) != [] && key(xs[i]) !in KeysBefore(xs, key, i)
  {
    if key(xs[i]) != [] && key(xs[i]) in KeysBefore(xs, key, i) {
      var j :| 0 <= j < i && key(xs[j]) != [] && key(xs[j]) == key(xs[i]);
    }
  }

  /** The loop has seen exactly the non-blank keys of the list. */
  lemma {:induction false} DedupKeys<T>(xs: seq<T>, key: T -> string)
    ensures KeysOf(Dedup(xs, key), key) == KeysBefore(xs, key, |xs|)
    decreases |xs|
  {
    if xs != [] {
      var n := |xs|;
      var p := xs[..n - 1];
      DedupKeys(p, key);
      KeysBeforePrefix(xs, p, key, n - 1);
      KeysBeforeStep(xs, key, n - 1);
      var d := Dedup(p, key);
      if key(xs[n - 1]) != [] && key(xs[n - 1]) !in KeysOf(d, key) {
        KeysOfAppend(d, xs[n - 1], key);
      }
    }
  }

  /**
   * The loop keeps exactly the first occurrences of the non-blank keys, in
   * their original order.
   */
  lemma {:induction false} DedupIsFirstOccurrences<T>(xs: seq<T>, key: T -> string)
    ensures Dedup(xs, key) == FirstOccurrences(xs, key, |xs|)
    decreases |xs|
  {
    if xs != [] {
      var n := |xs|;
      var p := xs[..n - 1];
      DedupIsFirstOccurrences(p, key);
      DedupKeys(p, key);
      FirstOccurrencesOfPrefix(xs, p, key, n - 1);
      KeysBeforePrefix(xs, p, key, n - 1);
      IsFirstOccurrenceIff(xs, key, n - 1);
    }
  }

  /** The kept elements have non-blank, pairwise different keys. */
  lemma {:induction false} DedupKeysDistinct<T>(xs: seq<T>, key: T -> string)
    ensures forall i :: 0 <= i < |Dedup(xs, key)| ==> key(Dedup(xs, key)[i]) != []
    ensures forall i, j :: 0 <= i < j < |Dedup(xs, key)| ==> key(Dedup(xs, key)[i]) != key(Dedup(xs, key)[j])
    ensures |KeysOf(Dedup(xs, key), key)| == |Dedup(xs, key)|
    decreases |xs|
  {
    if xs != [] {
      var p := xs[..|xs| - 1];
      var x := xs[|xs| - 1];
      DedupKeysDistinct(p, key);
      var d := Dedup(p, key);
      if key(x) != [] && key(x) !in KeysOf(d, key) {
        KeysOfAppend(d, x, key);
        var l := d + [x];
        forall i, j | 0 <= i < j < |l| ensures key(l[i]) != key(l[j]) {
          if j == |d| { assert key(l[i]) in KeysOf(d, key) by { assert l[i] == d[i]; } }
          else { assert l[i] == d[i] && l[j] == d[j]; }
        }
      }
    }
  }

  /** Every kept element is one of the input elements. */
  lemma {:induction false} DedupFromItems<T>(xs: seq<T>, key: T -> string)
    ensures forall x :: x in Dedup(xs, key) ==> x in xs
    decreases |xs|
  {
    if xs != [] {
      var p := xs[..|xs| - 1];
      DedupFromItems(p, key);
      assert forall x :: x in p ==> x in xs;
    }
  }

  /** The fillers for positions `from` up to `to` (exclusive) of the list, taken from a position-indexed source. */
  function FillerRun(from: nat, to: int, filler: nat -> Question): (r: seq<Question>)
    ensures |r| == Max(0, to - from)
  {
    seq(Max(0, to - from), k requires 0 <= k => filler(from + k))
  }

  /** One more filler at the end of a run. */
  lemma FillerRunStep(from: nat, to: int, filler: nat -> Question)
    requires from <= to
    ensures FillerRun(from, to + 1, filler) == FillerRun(from, to, filler) + [filler(to)]
  {
    var a, b := FillerRun(from, to + 1, filler), FillerRun(from, to, filler);
    assert forall k :: 0 <= k < |b| ==> a[k] == b[k];
  }

  /** Padding `kept` with fillers up to `total`, cutting it to `total`, and numbering it. */
  function Padded(kept: seq<Question>, total: int, filler: nat -> Question): seq<Question>
    requires total >= 0
  {
    Reindex((kept + FillerRun(|kept|, total, filler))[..total])
  }

  /** A filler source that numbers each filler by its position, as `createFillerQuestion(length + 1, ...)` does. */
  ghost predicate NumberedByPosition(filler: nat -> Question) {
    forall p: nat :: filler(p).id == p + 1
  }

  /**
   * Exactly `total` questions numbered 1..total: the kept questions first, in
   * order, each changed only in its id, then the fillers for their positions.
   */
  lemma PaddedShape(kept: seq<Question>, total: int, filler: nat -> Question)
    requires total >= 0 && NumberedByPosition(filler)
    ensures |Padded(kept, total, filler)| == total
    ensures DenseIds(Padded(kept, total, filler))
    ensures forall i :: 0 <= i < total && i < |kept| ==> SameButId(Padded(kept, total, filler)[i], kept[i])
    ensures forall i :: |kept| <= i < total ==> Padded(kept, total, filler)[i] == filler(i)
  {
    var padded := kept + FillerRun(|kept|, total, filler);
    var r := Padded(kept, total, filler);
    forall i | |kept| <= i < total
      ensures r[i] == filler(i)
    {
      assert padded[..total][i] == FillerRun(|kept|, total, filler)[i - |kept|];
    }
    forall i | 0 <= i < total && i < |kept| ensures SameButId(r[i], kept[i]) {
      assert padded[..total][i] == kept[i];
    }
  }

  /** With kept elements and fillers meeting a condition on types and shape, so does the padded list. */
  lemma PaddedContainment(kept: seq<Question>, total: int, filler: nat -> Question, allowed: seq<AllowedType>)
    requires total >= 0 && NumberedByPosition(filler)
    requires forall q :: q in kept ==> TypeOf(q) in allowed && WellFormed(q)
    requires forall p: nat :: TypeOf(filler(p)) in allowed && WellFormed(filler(p))
    ensures forall q :: q in Padded(kept, total, filler) ==> TypeOf(q) in allowed && WellFormed(q)
  {
    var r := Padded(kept, total, filler);
    PaddedShape(kept, total, filler);
    forall q | q in r ensures TypeOf(q) in allowed && WellFormed(q) {
      var i :| 0 <= i < |r| && r[i] == q;
      if i < |kept| {
        assert kept[i] in kept;
        assert SameButId(r[i], kept[i]);
      } else {
        assert r[i] == filler(i);
      }
    }
  }

  /** The list `ensureExactCount(items, total, allowed, topic)` returns. */
  function ExactCountOf(items: seq<Question>, total: int, allowed: seq<AllowedType>, topic: string): (r: seq<Question>)
    requires total >= 0
    ensures |r| == total && DenseIds(r)
  {
    FillerAtNumbered(allowed, topic);
    PaddedShape(Dedup(items, QuestionKey), total, FillerAt(allowed, topic));
    Padded(Dedup(items, QuestionKey), total, FillerAt(allowed, topic))
  }

  /**
   * The result of `ensureExactCount`: `total` questions numbered 1..total,
   * whose first positions hold the first occurrence of each non-blank key,
   * in input order and changed only in their ids, and whose remaining
   * positions hold the fillers `createFillerQuestion(i + 1, allowed, topic)`
   * for those positions.
   */
  lemma ExactCountLayout(items: seq<Question>, total: int, allowed: seq<AllowedType>, topic: string)
    requires total >= 0
    ensures |ExactCountOf(items, total, allowed, topic)| == total
    ensures DenseIds(ExactCountOf(items, total, allowed, topic))
    ensures forall i :: 0 <= i < total && i < |FirstOccurrences(items, QuestionKey, |items|)| ==>
      SameButId(ExactCountOf(items, total, allowed, topic)[i], FirstOccurrences(items, QuestionKey, |items|)[i])
    ensures forall i :: |FirstOccurrences(items, QuestionKey, |items|)| <= i < total ==>
      ExactCountOf(items, total, allowed, topic)[i] == FillerAt(allowed, topic)(i)
  {
    DedupIsFirstOccurrences(items, QuestionKey);
    FillerAtNumbered(allowed, topic);
    PaddedShape(Dedup(items, QuestionKey), total, FillerAt(allowed, topic));
  }

  /**
   * The result contains only allowed types when the input does and the caller
   * allows at least one type, and it keeps the shape guarantees of its input.
   */
  lemma ExactCountContainment(items: seq<Question>, total: int, allowed: seq<AllowedType>, topic: string)
    requires total >= 0 && |allowed| > 0
    requires forall q :: q in items ==> TypeOf(q) in allowed && WellFormed(q)
    ensures forall q :: q in ExactCountOf(items, total, allowed, topic) ==> TypeOf(q) in allowed && WellFormed(q)
  {
    DedupFromItems(items, QuestionKey);
    FillerAtNumbered(allowed, topic);
    FillerAtAllowed(allowed, topic);
    PaddedContainment(Dedup(items, QuestionKey), total, FillerAt(allowed, topic), allowed);
  }

  /**
   * Two questions with the same key never both survive: among the
   * non-filler positions of the result every key appears once.
   */
  lemma ExactCountUniqueKeys(items: seq<Question>, total: int, allowed: seq<AllowedType>, topic: string)
    requires total >= 0
    ensures forall i, j :: 0 <= i < j < total && j < |Dedup(items, QuestionKey)| ==>
      QuestionKey(ExactCountOf(items, total, allowed, topic)[i]) != QuestionKey(ExactCountOf(items, total, allowed, topic)[j])
  {
    FillerAtNumbered(allowed, topic);
    PaddedShape(Dedup(items, QuestionKey), total, FillerAt(allowed, topic));
    DedupKeysDistinct(items, QuestionKey);
  }

  /** The de-duplication loop of `ensureExactCount`: a `seen` set and a growing `unique` list. */
  method KeepFirstByKey(items: seq<Question>) returns (unique: seq<Question>)
    ensures unique == Dedup(items, QuestionKey)
  {
    var seen: set<string> := {};
    unique := [];
    for i := 0 to |items|
      invariant unique == Dedup(items[..i], QuestionKey)
      invariant seen == KeysOf(unique, QuestionKey)
    {
      var q := items[i];
      var key := QuestionKey(q);
      assert items[..i + 1][..i] == items[..i];
      if key != [] && key !in seen {
        KeysOfAppend(unique, q, QuestionKey);
        seen := seen + {key};
        unique := unique + [q];
      }
    }
    assert items[..|items|] == items;
  }

  /** The top-up loop of `ensureExactCount`: push fillers, numbered by the new length, while short. */
  method PadWithFillers(unique: seq<Question>, total: int, allowed: seq<AllowedType>, topic: string)
    returns (padded: seq<Question>)
    ensures padded == unique + FillerRun(|unique|, total, FillerAt(allowed, topic))
  {
    padded := unique;
    while |padded| < total
      invariant |unique| <= |padded| <= Max(|unique|, total)
      invariant padded == unique + FillerRun(|unique|, |padded|, FillerAt(allowed, topic))
    {
      FillerRunStep(|unique|, |padded|, FillerAt(allowed, topic));
      padded := padded + [CreateFillerQuestion(|padded| + 1, allowed, topic)];
    }
  }

  /**
   * `ensureExactCount` as written: de-duplication, top-up, truncation to
   * `total`, and the reindexing map.
   */
  method EnsureExactCount(items: seq<Question>, total: int, allowed: seq<AllowedType>, topic: string)
    returns (r: seq<Question>)
    requires total >= 0
    ensures r == ExactCountOf(items, total, allowed, topic)
    ensures |r| == total && DenseIds(r)
  {
    var unique := KeepFirstByKey(items);
    unique := PadWithFillers(unique, total, allowed, topic);
    if |unique| > total {
      unique := unique[..total];
    }
    assert unique == (Dedup(items, QuestionKey) + FillerRun(|Dedup(items, QuestionKey)|, total, FillerAt(allowed, topic)))[..total];
    r := Reindex(unique);
  }
}

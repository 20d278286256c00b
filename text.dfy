/**
 * The JavaScript string primitives the pipeline relies on: `trim`, the
 * `\s+` collapse, `toLowerCase`, `Array.prototype.join`, number-to-string
 * and the two string-to-number conversions (`Number(str)` and
 * `parseInt(str, 10)`). Whitespace and case folding are restricted to ASCII.
 * The functions carry only length facts; what they mean is stated by the
 * lemmas beside them.
 */
module Text {
  import opened Basics

  /** The ASCII members of JavaScript's WhiteSpace and LineTerminator sets (`\s`, `trim`). */
  predicate IsSpace(c: char) {
    c == ' ' || c == '\t' || c == '\n' || c == '\r' || c == '\U{B}' || c == '\U{C}'
  }

  predicate AllSpace(s: string) {
    forall i :: 0 <= i < |s| ==> IsSpace(s[i])
  }

  predicate IsDigit(c: char) { '0' <= c <= '9' }

  predicate AllDigits(s: string) {
    forall i :: 0 <= i < |s| ==> IsDigit(s[i])
  }

  /** The end of the whitespace run that starts at `i`. */
  function SpaceRunEnd(s: string, i: nat): (j: nat)
    requires i <= |s|
    ensures i <= j <= |s|
    decreases |s| - i
  {
    if i < |s| && IsSpace(s[i]) then SpaceRunEnd(s, i + 1) else i
  }

  /** The start of the whitespace run that ends at `j`. */
  function SpaceRunStart(s: string, j: nat): (i: nat)
    requires j <= |s|
    ensures i <= j
    decreases j
  {
    if j > 0 && IsSpace(s[j - 1]) then SpaceRunStart(s, j - 1) else j
  }

  /** `SpaceRunEnd` stops at the first character that is not whitespace. */
  lemma {:induction false} SpaceRunEndSpec(s: string, i: nat)
    requires i <= |s|
    ensures forall k :: i <= k < SpaceRunEnd(s, i) ==> IsSpace(s[k])
    ensures SpaceRunEnd(s, i) < |s| ==> !IsSpace(s[SpaceRunEnd(s, i)])
    decreases |s| - i
  {
    if i < |s| && IsSpace(s[i]) {
      SpaceRunEndSpec(s, i + 1);
    }
  }

  /** `SpaceRunStart` stops after the last character that is not whitespace. */
  lemma {:induction false} SpaceRunStartSpec(s: string, j: nat)
    requires j <= |s|
    ensures forall k :: SpaceRunStart(s, j) <= k < j ==> IsSpace(s[k])
    ensures SpaceRunStart(s, j) > 0 ==> !IsSpace(s[SpaceRunStart(s, j) - 1])
    decreases j
  {
    if j > 0 && IsSpace(s[j - 1]) {
      SpaceRunStartSpec(s, j - 1);
    }
  }

  /** A whitespace run that ends at a non-whitespace character (or at the end) is the run `SpaceRunEnd` finds. */
  lemma {:induction false} SpaceRunEndAt(s: string, i: nat, m: nat)
    requires i <= m <= |s|
    requires forall k :: i <= k < m ==> IsSpace(s[k])
    requires m < |s| ==> !IsSpace(s[m])
    ensures SpaceRunEnd(s, i) == m
    decreases m - i
  {
    if i < m {
      SpaceRunEndAt(s, i + 1, m);
    }
  }

  /** A whitespace run that starts after a non-whitespace character (or at the start) is the run `SpaceRunStart` finds. */
  lemma {:induction false} SpaceRunStartAt(s: string, j: nat, m: nat)
    requires m <= j <= |s|
    requires forall k :: m <= k < j ==> IsSpace(s[k])
    requires m > 0 ==> !IsSpace(s[m - 1])
    ensures SpaceRunStart(s, j) == m
    decreases j - m
  {
    if m < j {
      SpaceRunStartAt(s, j - 1, m);
    }
  }

  /** `String.prototype.trimStart`. */
  function TrimStart(s: string): (r: string)
    ensures |r| <= |s|
  {
    s[SpaceRunEnd(s, 0)..]
  }

  /** `String.prototype.trimEnd`. */
  function TrimEnd(s: string): (r: string)
    ensures |r| <= |s|
  {
    s[..SpaceRunStart(s, |s|)]
  }

  /** `String.prototype.trim`. */
  function Trim(s: string): (r: string)
    ensures |r| <= |s|
  {
    TrimEnd(TrimStart(s))
  }

  /**
   * `trim` leaves nothing of a blank string, and of any other string a
   * piece that starts and ends with a non-whitespace character.
   */
  lemma TrimSpec(s: string)
    ensures Trim(s) == [] <==> AllSpace(s)
    ensures Trim(s) != [] ==> !IsSpace(Trim(s)[0]) && !IsSpace(Trim(s)[|Trim(s)| - 1])
  {
    var i := SpaceRunEnd(s, 0);
    SpaceRunEndSpec(s, 0);
    var t := s[i..];
    var j := SpaceRunStart(t, |t|);
    SpaceRunStartSpec(t, |t|);
    if i < |s| {
      assert t[0] == s[i];
      assert j > 0;
      assert Trim(s)[0] == t[0];
    } else {
      assert AllSpace(s);
    }
  }

  /** `trim` returns exactly the part between a whitespace prefix and a whitespace suffix. */
  lemma TrimExact(a: string, core: string, b: string)
    requires AllSpace(a) && AllSpace(b)
    requires core != [] ==> !IsSpace(core[0]) && !IsSpace(core[|core| - 1])
    ensures Trim(a + core + b) == core
  {
    var s := a + core + b;
    if core == [] {
      assert forall k :: 0 <= k < |s| ==> IsSpace(s[k]) by {
        forall k | 0 <= k < |s| ensures IsSpace(s[k]) {
          if k < |a| { assert s[k] == a[k]; } else { assert s[k] == b[k - |a|]; }
        }
      }
      SpaceRunEndAt(s, 0, |s|);
    } else {
      assert forall k :: 0 <= k < |a| ==> s[k] == a[k];
      assert s[|a|] == core[0];
      SpaceRunEndAt(s, 0, |a|);
      var t := s[|a|..];
      assert t == core + b;
      assert forall k :: |core| <= k < |t| ==> t[k] == b[k - |core|];
      assert t[|core| - 1] == core[|core| - 1];
      SpaceRunStartAt(t, |t|, |core|);
    }
  }

  /** `trim` is idempotent. */
  lemma TrimIdempotent(s: string)
    ensures Trim(Trim(s)) == Trim(s)
  {
    var t := Trim(s);
    TrimSpec(s);
    var e: string := [];
    assert e + t + e == t;
    TrimExact(e, t, e);
  }

  /** ASCII part of `toLowerCase` on one character. */
  function LowerChar(c: char): char {
    if 'A' <= c <= 'Z' then (c as int + 32) as char else c
  }

  /** `String.prototype.toLowerCase`, with ASCII case folding only. */
  function Lower(s: string): (r: string)
    ensures |r| == |s|
  {
    seq(|s|, i requires 0 <= i < |s| => LowerChar(s[i]))
  }

  /** `s.replace(/\s+/g, ' ')`: every maximal whitespace run becomes one space. */
  function CollapseWhitespace(s: string): (r: string)
    ensures |r| <= |s|
    decreases |s|
  {
    if s == [] then []
    else if IsSpace(s[0]) then " " + CollapseWhitespace(TrimStart(s))
    else [s[0]] + CollapseWhitespace(s[1..])
  }

  /** Collapsing whitespace turns a blank string into a blank one and no other. */
  lemma CollapseBlank(s: string)
    ensures AllSpace(CollapseWhitespace(s)) <==> AllSpace(s)
  {
    CollapseKeepsNonSpace(s);
    NonSpaceEmpty(s);
    NonSpaceEmpty(CollapseWhitespace(s));
  }

  /** Folding case keeps whitespace as it is and makes nothing else whitespace. */
  lemma LowerCharSpace(c: char)
    ensures IsSpace(LowerChar(c)) <==> IsSpace(c)
    ensures IsSpace(c) ==> LowerChar(c) == c
    ensures !('A' <= LowerChar(c) <= 'Z')
  {
  }

  /** `toLowerCase` works character by character, so it commutes with slicing and concatenation. */
  lemma LowerSlice(s: string, i: nat, j: nat)
    requires i <= j <= |s|
    ensures Lower(s[i..j]) == Lower(s)[i..j]
  {
  }

  lemma LowerAppend(a: string, b: string)
    ensures Lower(a + b) == Lower(a) + Lower(b)
  {
  }

  /** A whitespace run is where it was after folding case. */
  lemma {:induction false} SpaceRunEndLower(s: string, i: nat)
    requires i <= |s|
    ensures SpaceRunEnd(Lower(s), i) == SpaceRunEnd(s, i)
    decreases |s| - i
  {
    if i < |s| {
      LowerCharSpace(s[i]);
      SpaceRunEndLower(s, i + 1);
    }
  }

  lemma {:induction false} SpaceRunStartLower(s: string, j: nat)
    requires j <= |s|
    ensures SpaceRunStart(Lower(s), j) == SpaceRunStart(s, j)
    decreases j
  {
    if j > 0 {
      LowerCharSpace(s[j - 1]);
      SpaceRunStartLower(s, j - 1);
    }
  }

  /** Trimming and folding case can be done in either order. */
  lemma TrimLower(s: string)
    ensures Trim(Lower(s)) == Lower(Trim(s))
  {
    SpaceRunEndLower(s, 0);
    var e := SpaceRunEnd(s, 0);
    LowerSlice(s, e, |s|);
    assert TrimStart(Lower(s)) == Lower(TrimStart(s));
    var t := TrimStart(s);
    SpaceRunStartLower(t, |t|);
    LowerSlice(t, 0, SpaceRunStart(t, |t|));
  }

  /** Collapsing whitespace and folding case can be done in either order. */
  lemma {:induction false} CollapseLower(s: string)
    ensures CollapseWhitespace(Lower(s)) == Lower(CollapseWhitespace(s))
    decreases |s|
  {
    if s != [] {
      var l := Lower(s);
      LowerCharSpace(s[0]);
      if IsSpace(s[0]) {
        SpaceRunEndLower(s, 0);
        LowerSlice(s, SpaceRunEnd(s, 0), |s|);
        assert TrimStart(l) == Lower(TrimStart(s));
        CollapseLower(TrimStart(s));
        LowerAppend(" ", CollapseWhitespace(TrimStart(s)));
      } else {
        LowerSlice(s, 1, |s|);
        assert l[1..] == Lower(s[1..]);
        CollapseLower(s[1..]);
        LowerAppend([s[0]], CollapseWhitespace(s[1..]));
      }
    }
  }

  /** Folding case twice is folding it once. */
  lemma LowerIdempotent(s: string)
    ensures Lower(Lower(s)) == Lower(s)
  {
  }

  /** Whitespace appears only as single spaces, never two in a row. */
  predicate SingleSpaced(s: string) {
    forall i :: 0 <= i < |s| && IsSpace(s[i]) ==> s[i] == ' ' && (i + 1 < |s| ==> !IsSpace(s[i + 1]))
  }

  /** A piece of a single-spaced string is single-spaced. */
  lemma SingleSpacedSlice(s: string, i: nat, j: nat)
    requires SingleSpaced(s) && i <= j <= |s|
    ensures SingleSpaced(s[i..j])
  {
    var t := s[i..j];
    forall k | 0 <= k < |t| && IsSpace(t[k]) ensures t[k] == ' ' && (k + 1 < |t| ==> !IsSpace(t[k + 1])) {
      assert t[k] == s[i + k];
      if k + 1 < |t| { assert t[k + 1] == s[i + k + 1]; }
    }
  }

  lemma SingleSpacedLower(s: string)
    requires SingleSpaced(s)
    ensures SingleSpaced(Lower(s))
  {
    var l := Lower(s);
    forall k | 0 <= k < |l| && IsSpace(l[k]) ensures l[k] == ' ' && (k + 1 < |l| ==> !IsSpace(l[k + 1])) {
      LowerCharSpace(s[k]);
      if k + 1 < |l| { LowerCharSpace(s[k + 1]); }
    }
  }

  /** Text that does not start with whitespace keeps its first character through the collapse. */
  lemma CollapseHead(s: string)
    requires s != [] && !IsSpace(s[0])
    ensures CollapseWhitespace(s) != [] && CollapseWhitespace(s)[0] == s[0]
  {
  }

  /** After the collapse every whitespace run is a single space. */
  lemma {:induction false} CollapseSingleSpaced(s: string)
    ensures SingleSpaced(CollapseWhitespace(s))
    decreases |s|
  {
    if s != [] {
      var r := CollapseWhitespace(s);
      if IsSpace(s[0]) {
        var t := TrimStart(s);
        SpaceRunEndSpec(s, 0);
        CollapseSingleSpaced(t);
        var c := CollapseWhitespace(t);
        assert r == " " + c;
        if t != [] {
          assert t[0] == s[SpaceRunEnd(s, 0)];
          CollapseHead(t);
        }
        forall k | 0 <= k < |r| && IsSpace(r[k]) ensures r[k] == ' ' && (k + 1 < |r| ==> !IsSpace(r[k + 1])) {
          if k > 0 { assert r[k] == c[k - 1]; }
          if k + 1 < |r| { assert r[k + 1] == c[k]; }
        }
      } else {
        CollapseSingleSpaced(s[1..]);
        var c := CollapseWhitespace(s[1..]);
        assert r == [s[0]] + c;
        forall k | 0 <= k < |r| && IsSpace(r[k]) ensures r[k] == ' ' && (k + 1 < |r| ==> !IsSpace(r[k + 1])) {
          assert k > 0;
          assert r[k] == c[k - 1];
          if k + 1 < |r| { assert r[k + 1] == c[k]; }
        }
      }
    }
  }

  /** The characters of a string that are not whitespace, in order. */
  function NonSpace(s: string): string
    decreases |s|
  {
    if s == [] then [] else (if IsSpace(s[0]) then [] else [s[0]]) + NonSpace(s[1..])
  }

  /** A string keeps no characters exactly when it is blank. */
  lemma {:induction false} NonSpaceEmpty(s: string)
    ensures NonSpace(s) == [] <==> AllSpace(s)
    decreases |s|
  {
    if s != [] {
      NonSpaceEmpty(s[1..]);
      if !IsSpace(s[0]) {
        assert NonSpace(s)[0] == s[0];
      } else {
        assert forall k :: 1 <= k < |s| ==> s[k] == s[1..][k - 1];
      }
    }
  }

  /** Dropping leading whitespace keeps the characters that are not whitespace. */
  lemma {:induction false} NonSpaceTrimStart(s: string)
    ensures NonSpace(TrimStart(s)) == NonSpace(s)
    decreases |s|
  {
    if s != [] && IsSpace(s[0]) {
      assert s == [s[0]] + s[1..];
      TrimStartSpacePrefix([s[0]], s[1..]);
      NonSpaceTrimStart(s[1..]);
    } else {
      SpaceRunEndAt(s, 0, 0);
    }
  }

  /** The characters kept from a concatenation are those kept from each part. */
  lemma {:induction false} NonSpaceAppend(a: string, b: string)
    ensures NonSpace(a + b) == NonSpace(a) + NonSpace(b)
    decreases |a|
  {
    if a != [] {
      assert (a + b)[0] == a[0];
      assert (a + b)[1..] == a[1..] + b;
      NonSpaceAppend(a[1..], b);
    } else {
      assert a + b == b;
    }
  }

  /** A blank string keeps no characters. */
  lemma {:induction false} NonSpaceBlank(s: string)
    requires AllSpace(s)
    ensures NonSpace(s) == []
    decreases |s|
  {
    if s != [] {
      NonSpaceBlank(s[1..]);
    }
  }

  /** Trimming keeps the characters that are not whitespace. */
  lemma NonSpaceTrim(s: string)
    ensures NonSpace(Trim(s)) == NonSpace(s)
  {
    var u := TrimStart(s);
    NonSpaceTrimStart(s);
    var k := SpaceRunStart(u, |u|);
    SpaceRunStartSpec(u, |u|);
    assert u == u[..k] + u[k..];
    NonSpaceAppend(u[..k], u[k..]);
    NonSpaceBlank(u[k..]);
  }

  /** Lower-casing and keeping the non-whitespace characters commute. */
  lemma {:induction false} NonSpaceLower(s: string)
    ensures NonSpace(Lower(s)) == Lower(NonSpace(s))
    decreases |s|
  {
    if s != [] {
      LowerCharSpace(s[0]);
      assert Lower(s)[1..] == Lower(s[1..]);
      NonSpaceLower(s[1..]);
      LowerAppend(if IsSpace(s[0]) then [] else [s[0]], NonSpace(s[1..]));
    }
  }

  /** The collapse keeps every character that is not whitespace, in order, and adds none. */
  lemma {:induction false} CollapseKeepsNonSpace(s: string)
    ensures NonSpace(CollapseWhitespace(s)) == NonSpace(s)
    decreases |s|
  {
    if s != [] {
      if IsSpace(s[0]) {
        var c := CollapseWhitespace(TrimStart(s));
        assert (" " + c)[1..] == c;
        CollapseKeepsNonSpace(TrimStart(s));
        NonSpaceTrimStart(s);
      } else {
        var c := CollapseWhitespace(s[1..]);
        assert ([s[0]] + c)[1..] == c;
        CollapseKeepsNonSpace(s[1..]);
      }
    }
  }

  /** A single-spaced string comes through the collapse unchanged, so every other character is kept in place. */
  lemma {:induction false} CollapseKeepsSingleSpaced(s: string)
    requires SingleSpaced(s)
    ensures CollapseWhitespace(s) == s
    decreases |s|
  {
    if s != [] {
      SingleSpacedSlice(s, 1, |s|);
      CollapseKeepsSingleSpaced(s[1..]);
      if IsSpace(s[0]) {
        SpaceRunEndAt(s, 0, 1);
        assert TrimStart(s) == s[1..];
        assert s == " " + s[1..];
      } else {
        assert s == [s[0]] + s[1..];
      }
    }
  }

  /** Lower-casing leaves a string without upper-case ASCII letters as it is. */
  lemma LowerKeepsNoUpper(s: string)
    requires forall i :: 0 <= i < |s| ==> !('A' <= s[i] <= 'Z')
    ensures Lower(s) == s
  {
  }

  /** Leading whitespace in front of more text is skipped along with that text's own. */
  lemma TrimStartSpacePrefix(a: string, b: string)
    requires AllSpace(a)
    ensures TrimStart(a + b) == TrimStart(b)
  {
    var s := a + b;
    SpaceRunEndSpec(b, 0);
    var m := |a| + SpaceRunEnd(b, 0);
    assert forall k :: |a| <= k < |s| ==> s[k] == b[k - |a|];
    SpaceRunEndAt(s, 0, m);
    assert s[m..] == b[SpaceRunEnd(b, 0)..];
  }

  /** Trimming the start of text that is not blank does not reach what follows it. */
  lemma TrimStartNotBlank(a: string, b: string)
    requires !AllSpace(a)
    ensures TrimStart(a + b) == TrimStart(a) + b
  {
    var s := a + b;
    SpaceRunEndSpec(a, 0);
    var e := SpaceRunEnd(a, 0);
    assert e < |a|;
    assert forall k :: 0 <= k < |a| ==> s[k] == a[k];
    SpaceRunEndAt(s, 0, e);
    assert s[e..] == a[e..] + b;
  }

  /** Any non-empty whitespace run collapses exactly as a single space would. */
  lemma {:induction false} CollapseRun(x: string, ws: string, y: string)
    requires ws != [] && AllSpace(ws)
    ensures CollapseWhitespace(x + ws + y) == CollapseWhitespace(x + " " + y)
    decreases |x|
  {
    var s1 := x + ws + y;
    var s2 := x + " " + y;
    if x == [] {
      assert s1 == ws + y && s2 == " " + y;
      TrimStartSpacePrefix(ws, y);
      TrimStartSpacePrefix(" ", y);
    } else if !IsSpace(x[0]) {
      assert s1[1..] == x[1..] + ws + y;
      assert s2[1..] == x[1..] + " " + y;
      CollapseRun(x[1..], ws, y);
    } else if AllSpace(x) {
      assert s1 == (x + ws) + y && s2 == (x + " ") + y;
      TrimStartSpacePrefix(x + ws, y);
      TrimStartSpacePrefix(x + " ", y);
    } else {
      assert s1 == x + (ws + y) && s2 == x + (" " + y);
      TrimStartNotBlank(x, ws + y);
      TrimStartNotBlank(x, " " + y);
      var x' := TrimStart(x);
      assert SpaceRunEnd(x, 0) >= 1;
      assert x' + (ws + y) == x' + ws + y;
      assert x' + (" " + y) == x' + " " + y;
      CollapseRun(x', ws, y);
    }
  }

  function DigitChar(d: int): char
    requires 0 <= d < 10
  {
    ('0' as int + d) as char
  }

  function DigitValue(c: char): int {
    c as int - '0' as int
  }

  /** Decimal digits of a natural number, most significant first, with no leading zeros. */
  function NatToString(n: nat): (r: string)
    ensures |r| >= 1
    decreases n
  {
    if n < 10 then [DigitChar(n)] else NatToString(n / 10) + [DigitChar(n % 10)]
  }

  /** `NatToString` prints only digits, and no leading zero. */
  lemma {:induction false} NatToStringDigits(n: nat)
    ensures AllDigits(NatToString(n))
    ensures |NatToString(n)| > 1 ==> NatToString(n)[0] != '0'
    decreases n
  {
    if n >= 10 {
      NatToStringDigits(n / 10);
      var p := NatToString(n / 10);
      assert NatToString(n) == p + [DigitChar(n % 10)];
      assert NatToString(n)[0] == p[0];
      assert n / 10 >= 1;
    }
  }

  /** What a template literal `${n}` prints for an integer `n`. */
  function IntToString(n: int): (r: string)
    ensures |r| >= 1
  {
    if n < 0 then "-" + NatToString(-n) else NatToString(n)
  }

  /** The value a string of decimal digits denotes. */
  function DigitsValue(s: string): int
    decreases |s|
  {
    if s == [] then 0 else DigitsValue(s[..|s| - 1]) * 10 + DigitValue(s[|s| - 1])
  }

  /** Reading back the digits that `NatToString` printed gives the number. */
  lemma {:induction false} NatToStringRoundTrip(n: nat)
    ensures DigitsValue(NatToString(n)) == n
    decreases n
  {
    var r := NatToString(n);
    if n >= 10 {
      NatToStringRoundTrip(n / 10);
      assert r[..|r| - 1] == NatToString(n / 10);
    } else {
      assert r[..|r| - 1] == [];
    }
  }

  /** The end of the digit run that starts at `i`. */
  function DigitRunEnd(s: string, i: nat): (j: nat)
    requires i <= |s|
    ensures i <= j <= |s|
    decreases |s| - i
  {
    if i < |s| && IsDigit(s[i]) then DigitRunEnd(s, i + 1) else i
  }

  /** `DigitRunEnd` stops at the first character that is not a digit. */
  lemma {:induction false} DigitRunEndSpec(s: string, i: nat)
    requires i <= |s|
    ensures forall k :: i <= k < DigitRunEnd(s, i) ==> IsDigit(s[k])
    ensures DigitRunEnd(s, i) < |s| ==> !IsDigit(s[DigitRunEnd(s, i)])
    decreases |s| - i
  {
    if i < |s| && IsDigit(s[i]) {
      DigitRunEndSpec(s, i + 1);
    }
  }

  /** A string of digits is one digit run. */
  lemma {:induction false} DigitRunEndAll(s: string, i: nat)
    requires i <= |s| && AllDigits(s)
    ensures DigitRunEnd(s, i) == |s|
    decreases |s| - i
  {
    if i < |s| {
      DigitRunEndAll(s, i + 1);
    }
  }

  /** An optional `+` or `-` in front of the rest: (negative, rest). */
  function SplitSign(s: string): (bool, string) {
    if s != [] && (s[0] == '-' || s[0] == '+') then (s[0] == '-', s[1..]) else (false, s)
  }

  /** A digit string's value with the sign applied. */
  function Signed(negative: bool, digits: string): int {
    if negative then -DigitsValue(digits) else DigitsValue(digits)
  }

  /**
   * `parseInt(s, 10)`: skip leading whitespace, read an optional sign and the
   * longest run of digits; `None` stands for NaN (no digit at all).
   */
  function ParseInt(s: string): Option<int> {
    var (negative, rest) := SplitSign(TrimStart(s));
    var e := DigitRunEnd(rest, 0);
    if e == 0 then None else Some(Signed(negative, rest[..e]))
  }

  /** `rest[..e]` is a non-empty run of digits that the next character (if any) does not extend. */
  predicate IsDigitRun(rest: string, e: int) {
    0 < e <= |rest| && AllDigits(rest[..e]) && (e < |rest| ==> !IsDigit(rest[e]))
  }

  /**
   * `parseInt` is NaN exactly when no digit follows the whitespace and the
   * sign, and otherwise reads the whole digit run and nothing after it.
   */
  lemma ParseIntSpec(s: string)
    ensures var rest := SplitSign(TrimStart(s)).1;
      ParseInt(s).None? <==> (rest == [] || !IsDigit(rest[0]))
    ensures var (negative, rest) := SplitSign(TrimStart(s));
      ParseInt(s).Some? ==> exists e :: IsDigitRun(rest, e) && ParseInt(s).value == Signed(negative, rest[..e])
  {
    var (negative, rest) := SplitSign(TrimStart(s));
    DigitRunEndSpec(rest, 0);
    var e := DigitRunEnd(rest, 0);
    if e > 0 {
      assert AllDigits(rest[..e]);
    }
  }

  /**
   * `Number(s)` for a string, restricted to integers: a blank string is 0, an
   * optionally signed run of decimal digits (around whitespace) is its value,
   * anything else is NaN (`None`).
   */
  function StringToNumber(s: string): Option<int> {
    var t := Trim(s);
    if t == [] then Some(0)
    else
      var (negative, rest) := SplitSign(t);
      if rest != [] && DigitRunEnd(rest, 0) == |rest| then Some(Signed(negative, rest)) else None
  }

  /** `Number` of a blank string is 0. */
  lemma StringToNumberBlank(s: string)
    requires AllSpace(s)
    ensures StringToNumber(s) == Some(0)
  {
    TrimSpec(s);
  }

  /** A printed integer is an optional minus sign and the digits of its magnitude, with no whitespace at either end. */
  lemma IntToStringShape(n: int)
    ensures var m: nat := if n < 0 then -n else n;
      SplitSign(IntToString(n)) == (n < 0, NatToString(m)) && AllDigits(NatToString(m)) &&
      DigitsValue(NatToString(m)) == m
    ensures !IsSpace(IntToString(n)[0]) && !IsSpace(IntToString(n)[|IntToString(n)| - 1])
  {
    var m: nat := if n < 0 then -n else n;
    var digits := NatToString(m);
    NatToStringRoundTrip(m);
    NatToStringDigits(m);
    assert IsDigit(digits[0]) && IsDigit(digits[|digits| - 1]);
  }

  /** A printed integer converts back to itself with `Number`. */
  lemma IntToStringNumber(n: int)
    ensures StringToNumber(IntToString(n)) == Some(n)
  {
    var s := IntToString(n);
    IntToStringShape(n);
    var e: string := [];
    assert e + s + e == s;
    TrimExact(e, s, e);
    DigitRunEndAll(SplitSign(s).1, 0);
  }

  /** A printed integer converts back to itself with `parseInt`. */
  lemma IntToStringParseInt(n: int)
    ensures ParseInt(IntToString(n)) == Some(n)
  {
    var s := IntToString(n);
    IntToStringShape(n);
    SpaceRunEndAt(s, 0, 0);
    var digits := SplitSign(s).1;
    DigitRunEndAll(digits, 0);
    assert digits[..|digits|] == digits;
  }

  /** A prefix of a string is a prefix of anything that extends it. */
  lemma PrefixOfAppend(a: string, b: string, c: string)
    requires a <= b
    ensures a <= b + c
  {
    assert (b + c)[..|a|] == b[..|a|];
  }

  /** The right part of a concatenation is its suffix of that length. */
  lemma SuffixOfAppend(a: string, b: string)
    ensures |b| <= |a + b| && (a + b)[|a + b| - |b|..] == b
  {
  }

  /** `Array.prototype.join(sep)` on an array of strings. */
  function Join(parts: seq<string>, sep: string): string
    decreases |parts|
  {
    if |parts| == 0 then ""
    else if |parts| == 1 then parts[0]
    else Join(parts[..|parts| - 1], sep) + sep + parts[|parts| - 1]
  }

  /** Joining four parts puts the separator between each neighbouring pair. */
  lemma JoinFour(a: string, b: string, c: string, d: string, sep: string)
    ensures Join([a, b, c, d], sep) == a + sep + b + sep + c + sep + d
  {
    assert [a, b][..1] == [a];
    assert Join([a, b], sep) == a + sep + b;
    assert [a, b, c][..2] == [a, b];
    assert Join([a, b, c], sep) == a + sep + b + sep + c;
    assert [a, b, c, d][..3] == [a, b, c];
  }
}

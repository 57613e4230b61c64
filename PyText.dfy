/** The Python string built-ins the service relies on: `str.isspace` (and the
    regex class `\s`, which agrees with it), `\d`, `\w`, `str.lower`,
    `str.strip`, the `in` operator on strings and `int()` of a digit string,
    with `Decimal` as the reference rendering that `int()` is proved to
    invert. Letters, digits and case mapping are ASCII;
    whitespace is the complete set of code points Python treats as such. */
module PyText {

  /** `c.isspace()`: ASCII tab, line feed, vertical tab, form feed, carriage
      return, the four separators 0x1C-0x1F and space, or one of the
      Unicode spaces. */
  predicate IsSpace(c: char) {
    if c <= ' ' then c == ' ' || '\t' <= c <= '\r' || '\U{1c}' <= c
    else '\U{85}' <= c && IsUnicodeSpace(c)
  }

  /** The whitespace code points above U+007F. */
  predicate IsUnicodeSpace(c: char) {
    || c == '\U{85}' || c == '\U{a0}' || c == '\U{1680}'
    || '\U{2000}' <= c <= '\U{200a}'
    || c == '\U{2028}' || c == '\U{2029}' || c == '\U{202f}'
    || c == '\U{205f}' || c == '\U{3000}'
  }

  predicate IsDigit(c: char) {
    '0' <= c <= '9'
  }

  predicate IsUpper(c: char) {
    'A' <= c <= 'Z'
  }

  /** The regex class `\w`: letters, digits and underscore. */
  predicate IsWordChar(c: char) {
    IsDigit(c) || IsUpper(c) || 'a' <= c <= 'z' || c == '_'
  }

  predicate NotSpace(c: char) {
    !IsSpace(c)
  }

  predicate AllSpace(s: string) {
    forall i | 0 <= i < |s| :: IsSpace(s[i])
  }

  predicate AllDigits(s: string) {
    forall i | 0 <= i < |s| :: IsDigit(s[i])
  }

  /** `c.lower()` for one character. */
  function Lower(c: char): (r: char)
    ensures IsUpper(c) ==> r as int == c as int + 32
    ensures !IsUpper(c) ==> r == c
    ensures !IsUpper(r)
  {
    if IsUpper(c) then (c as int + 32) as char else c
  }

  /** `s.lower()`, character by character. */
  function LowerStr(s: string): (r: string)
    ensures |r| == |s|
    ensures forall i | 0 <= i < |s| :: r[i] == Lower(s[i])
  {
    seq(|s|, i requires 0 <= i < |s| => Lower(s[i]))
  }

  lemma LowerPreservesSpace(c: char)
    ensures IsSpace(Lower(c)) == IsSpace(c)
  {
  }

  lemma LowerStrIdempotent(s: string)
    ensures LowerStr(LowerStr(s)) == LowerStr(s)
  {
  }

  lemma LowerStrConcat(a: string, b: string)
    ensures LowerStr(a + b) == LowerStr(a) + LowerStr(b)
  {
  }

  lemma LowerStrAllSpace(s: string)
    requires AllSpace(s)
    ensures LowerStr(s) == s
  {
  }

  /** `s.lstrip()`. */
  function StripLeft(s: string): (r: string)
    ensures |r| <= |s| && r == s[|s| - |r|..]
    ensures AllSpace(s[..|s| - |r|])
    ensures r == [] || !IsSpace(r[0])
  {
    if s != [] && IsSpace(s[0]) then StripLeft(s[1..]) else s
  }

  /** `s.rstrip()`. */
  function StripRight(s: string): (r: string)
    ensures |r| <= |s| && r == s[..|r|]
    ensures AllSpace(s[|r|..])
    ensures r == [] || !IsSpace(r[|r| - 1])
  {
    if s != [] && IsSpace(s[|s| - 1]) then StripRight(s[..|s| - 1]) else s
  }

  /** `s.strip()`: the longest slice of `s` that neither starts nor ends with
      whitespace, everything cut off being whitespace. */
  function Strip(s: string): (r: string)
    ensures |r| <= |s|
    ensures r == [] || (!IsSpace(r[0]) && !IsSpace(r[|r| - 1]))
    ensures r == [] <==> AllSpace(s)
  {
    var l := StripLeft(s);
    assert l == [] ==> s[..|s|] == s;
    StripRight(l)
  }

  /** Every character of `Strip(s)` is a character of `s`. */
  lemma StripChar(s: string, k: nat)
    requires k < |Strip(s)|
    ensures Strip(s)[k] in s
  {
    var l := StripLeft(s);
    assert Strip(s)[k] == l[k] == s[|s| - |l| + k];
  }

  lemma {:induction false} StripLeftPadded(ws: string, s: string)
    requires AllSpace(ws)
    ensures StripLeft(ws + s) == StripLeft(s)
  {
    if ws != [] {
      var t := ws + s;
      assert t != [] && IsSpace(t[0]);
      assert t[1..] == ws[1..] + s;
      calc {
        StripLeft(t);
        StripLeft(t[1..]);
        { StripLeftPadded(ws[1..], s); }
        StripLeft(s);
      }
    } else {
      assert ws + s == s;
    }
  }

  lemma {:induction false} StripRightPadded(s: string, ws: string)
    requires AllSpace(ws)
    ensures StripRight(s + ws) == StripRight(s)
  {
    if ws != [] {
      var t := s + ws;
      assert t != [] && IsSpace(t[|t| - 1]);
      assert t[..|t| - 1] == s + ws[..|ws| - 1];
      calc {
        StripRight(t);
        StripRight(t[..|t| - 1]);
        { StripRightPadded(s, ws[..|ws| - 1]); }
        StripRight(s);
      }
    } else {
      assert s + ws == s;
    }
  }

  /** Stripping the left of a string and then appending whitespace commutes,
      unless the whole string is whitespace. */
  lemma {:induction false} StripLeftAppendSpace(s: string, ws: string)
    requires AllSpace(ws)
    ensures StripLeft(s + ws) == if AllSpace(s) then [] else StripLeft(s) + ws
  {
    if s == [] {
      assert s + ws == ws;
      StripLeftPadded(ws, []);
      assert ws + [] == ws;
    } else if IsSpace(s[0]) {
      assert (s + ws)[1..] == s[1..] + ws;
      StripLeftAppendSpace(s[1..], ws);
    }
  }

  /** Leading and trailing whitespace never change `strip()`. */
  lemma StripPadded(ws1: string, s: string, ws2: string)
    requires AllSpace(ws1) && AllSpace(ws2)
    ensures Strip(ws1 + s + ws2) == Strip(s)
  {
    assert ws1 + s + ws2 == ws1 + (s + ws2);
    StripLeftPadded(ws1, s + ws2);
    StripLeftAppendSpace(s, ws2);
    if !AllSpace(s) {
      StripRightPadded(StripLeft(s), ws2);
    }
  }

  /** Python's `w in t`: some slice of `t` equals `w`. */
  predicate LiteralAt(t: string, i: nat, w: string) {
    i + |w| <= |t| && t[i..i + |w|] == w
  }

  function ContainsFrom(t: string, w: string, from: nat): (r: bool)
    requires from <= |t|
    ensures r <==> exists i :: from <= i <= |t| && LiteralAt(t, i, w)
    decreases |t| - from
  {
    if LiteralAt(t, from, w) then true
    else if from == |t| then false
    else ContainsFrom(t, w, from + 1)
  }

  function Contains(t: string, w: string): bool {
    ContainsFrom(t, w, 0)
  }

  lemma ContainsSpec(t: string, w: string)
    ensures Contains(t, w) <==> exists i :: 0 <= i <= |t| && LiteralAt(t, i, w)
  {
  }

  /** `w` occurs in `a + w + b` right after `a`. */
  lemma LiteralAtJoin(a: string, w: string, b: string)
    ensures LiteralAt(a + w + b, |a|, w)
  {
    assert (a + w + b)[|a|..|a| + |w|] == w;
  }

  /** A word holding a character the text lacks does not occur in it. */
  lemma AbsentCharNotContained(t: string, w: string, k: nat)
    requires k < |w|
    requires forall i | 0 <= i < |t| :: t[i] != w[k]
    ensures !Contains(t, w)
  {
    forall i | 0 <= i <= |t| ensures !LiteralAt(t, i, w) {
      if i + |w| <= |t| {
        assert t[i..i + |w|][k] == t[i + k];
      }
    }
    ContainsSpec(t, w);
  }

  /** One of the first three characters of `w` differs from the text at `i`,
      or `w` would run past the end: a witness that `w` does not start there. */
  predicate DiffersNear(t: string, i: nat, w: string) {
    |w| >= 3 && (i + 2 >= |t| || t[i] != w[0] || t[i + 1] != w[1] || t[i + 2] != w[2])
  }

  lemma DiffersNearMiss(t: string, i: nat, w: string)
    requires DiffersNear(t, i, w)
    ensures !LiteralAt(t, i, w)
  {
  }

  /** A string containing a longer one contains every slice of it. */
  lemma ContainsSlice(t: string, w: string, a: nat, b: nat)
    requires a <= b <= |w|
    requires Contains(t, w)
    ensures Contains(t, w[a..b])
  {
    ContainsSpec(t, w);
    ContainsSpec(t, w[a..b]);
    var i :| 0 <= i <= |t| && LiteralAt(t, i, w);
    assert t[i + a..i + b] == w[a..b] by {
      forall k | 0 <= k < b - a
        ensures t[i + a..i + b][k] == w[a..b][k]
      {
        assert t[i..i + |w|][a + k] == w[a + k];
      }
    }
    assert LiteralAt(t, i + a, w[a..b]);
  }

  function DigitValue(c: char): (d: nat)
    requires IsDigit(c)
    ensures d < 10
  {
    c as int - '0' as int
  }

  function DigitChar(d: nat): (c: char)
    requires d < 10
    ensures IsDigit(c) && DigitValue(c) == d
  {
    ('0' as int + d) as char
  }

  /** `int(s)` for a non-empty run of decimal digits (leading zeros allowed). */
  function DecimalValue(s: string): nat
    requires AllDigits(s)
  {
    if s == [] then 0 else DecimalValue(s[..|s| - 1]) * 10 + DigitValue(s[|s| - 1])
  }

  /** `str(n)`: the decimal rendering of a natural number, without leading zeros. */
  function Decimal(n: nat): (s: string)
    ensures AllDigits(s) && |s| >= 1
    ensures |s| > 1 ==> s[0] != '0'
  {
    if n < 10 then [DigitChar(n)] else Decimal(n / 10) + [DigitChar(n % 10)]
  }

  /** `int(str(n)) == n`. */
  lemma {:induction false} DecimalRoundTrip(n: nat)
    ensures DecimalValue(Decimal(n)) == n
  {
    if n >= 10 {
      var s := Decimal(n);
      assert s[..|s| - 1] == Decimal(n / 10);
      DecimalRoundTrip(n / 10);
    }
  }

  /** `int("0" + s) == int(s)`: leading zeros do not change the value. */
  lemma {:induction false} DecimalLeadingZero(s: string)
    requires AllDigits(s)
    ensures DecimalValue(['0'] + s) == DecimalValue(s)
  {
    if s != [] {
      assert (['0'] + s)[..|s|] == ['0'] + s[..|s| - 1];
      DecimalLeadingZero(s[..|s| - 1]);
    }
  }

  /** The position one past the maximal run of characters satisfying `p`
      that starts at `i` (a greedy `p+` / `p*` in a regular expression). */
  function RunEnd(t: string, i: nat, p: char -> bool): (j: nat)
    requires i <= |t|
    ensures i <= j <= |t|
    ensures j == |t| || !p(t[j])
    decreases |t| - i
  {
    if i < |t| && p(t[i]) then RunEnd(t, i + 1, p) else i
  }

  /** Every character the run passes over satisfies `p`. */
  lemma {:induction false} RunEndSpan(t: string, i: nat, p: char -> bool)
    requires i <= |t|
    ensures forall k | i <= k < RunEnd(t, i, p) :: p(t[k])
    decreases |t| - i
  {
    if i < |t| && p(t[i]) {
      RunEndSpan(t, i + 1, p);
    }
  }

  /** A run whose every character satisfies `p` reaches the end of the text. */
  lemma {:induction false} RunEndWhole(t: string, i: nat, p: char -> bool)
    requires i <= |t|
    requires forall k | i <= k < |t| :: p(t[k])
    ensures RunEnd(t, i, p) == |t|
    decreases |t| - i
  {
    if i < |t| {
      RunEndWhole(t, i + 1, p);
    }
  }

  /** A run that stops inside `a` (or at its end, where `x` begins with a
      character outside the run) is not changed by appending `x`. */
  lemma {:induction false} RunEndAppend(a: string, x: string, i: nat, p: char -> bool)
    requires i <= |a|
    requires x == [] || !p(x[0])
    ensures RunEnd(a + x, i, p) == RunEnd(a, i, p)
    decreases |a| - i
  {
    if i < |a| && p(a[i]) {
      assert (a + x)[i] == a[i];
      RunEndAppend(a, x, i + 1, p);
    } else if i < |a| {
      assert (a + x)[i] == a[i];
    } else if x != [] {
      assert (a + x)[i] == x[0];
    }
  }
}

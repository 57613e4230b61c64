/** The string analyser of app/utils/helper.py: five total functions over a
    string. The SHA-256 digest is computed elsewhere and is not modelled. */
module Helper {
  import opened PyText

  /** `len(s)`: the number of characters (code points) of `s`. */
  function Length(s: string): (n: nat)
    ensures n == |multiset(s)|
    ensures n == 0 <==> s == []
  {
    |s|
  }

  /** `s[::-1]`. */
  function Reverse(s: string): (r: string)
    ensures |r| == |s|
    ensures forall i | 0 <= i < |s| :: r[i] == s[|s| - 1 - i]
  {
    seq(|s|, i requires 0 <= i < |s| => s[|s| - 1 - i])
  }

  lemma ReverseInvolution(s: string)
    ensures Reverse(Reverse(s)) == s
  {
  }

  /** `s.lower() == s.lower()[::-1]`. */
  predicate IsPalindrome(s: string) {
    var l := LowerStr(s);
    l == Reverse(l)
  }

  /** A palindrome reads the same from both ends, ignoring case: character `i`
      and its mirror image agree once lowered. */
  lemma PalindromeMirror(s: string)
    ensures IsPalindrome(s) <==>
            forall i | 0 <= i < |s| :: Lower(s[i]) == Lower(s[|s| - 1 - i])
  {
    var l := LowerStr(s);
    if forall i | 0 <= i < |s| :: Lower(s[i]) == Lower(s[|s| - 1 - i]) {
      assert forall i | 0 <= i < |l| :: l[i] == Reverse(l)[i];
    }
  }

  /** Only the lowered text matters: "Racecar" and "racecar" agree. */
  lemma PalindromeCaseInsensitive(s: string, t: string)
    requires LowerStr(s) == LowerStr(t)
    ensures IsPalindrome(s) == IsPalindrome(t)
  {
  }

  lemma PalindromeOfLowered(s: string)
    ensures IsPalindrome(LowerStr(s)) == IsPalindrome(s)
  {
    LowerStrIdempotent(s);
  }

  /** The empty string and every one-character string are palindromes. */
  lemma PalindromeShort(s: string)
    requires |s| <= 1
    ensures IsPalindrome(s)
  {
    PalindromeMirror(s);
  }

  lemma PalindromeExamples()
    ensures IsPalindrome("Racecar")
    ensures !IsPalindrome("hello")
    ensures IsPalindrome("")
    ensures IsPalindrome("level")
  {
    PalindromeMirror("Racecar");
    PalindromeMirror("level");
    assert LowerStr("hello")[0] == 'h' && Reverse(LowerStr("hello"))[0] == 'o';
  }

  /** `set(s)`. */
  function CharSet(s: string): set<char> {
    set c | c in s
  }

  /** `len(set(s))`: the number of distinct characters, case-sensitively. */
  function UniqueCharacters(s: string): nat {
    |CharSet(s)|
  }

  lemma {:induction false} CharSetSnoc(s: string, c: char)
    ensures CharSet(s + [c]) == CharSet(s) + {c}
  {
  }

  /** The distinct characters are never more than the characters, and there
      are none exactly for the empty string. */
  lemma {:induction false} UniqueCharactersBounds(s: string)
    ensures UniqueCharacters(s) <= Length(s)
    ensures UniqueCharacters(s) == 0 <==> s == []
  {
    if s != [] {
      assert s[0] in CharSet(s);
      var p := s[..|s| - 1];
      assert s == p + [s[|s| - 1]];
      CharSetSnoc(p, s[|s| - 1]);
      UniqueCharactersBounds(p);
    }
  }

  lemma UniqueCharactersExamples()
    ensures UniqueCharacters("Aa") == 2
    ensures UniqueCharacters("aab") == 2
  {
    assert CharSet("Aa") == {'A', 'a'};
    assert CharSet("aab") == {'a', 'b'};
  }

  /** `s.split()` with no separator: the maximal runs of non-whitespace, in order. */
  function Split(s: string): (words: seq<string>)
    ensures forall w | w in words :: w != [] && forall k | 0 <= k < |w| :: !IsSpace(w[k])
    decreases |s|
  {
    if s == [] then []
    else if IsSpace(s[0]) then Split(s[1..])
    else
      var n := RunEnd(s, 0, NotSpace);
      RunEndSpan(s, 0, NotSpace);
      [s[..n]] + Split(s[n..])
  }

  /** `len(s.split())`. */
  function WordCount(s: string): nat {
    |Split(s)|
  }

  /** No words exactly when the string is empty or all whitespace. */
  lemma {:induction false} WordCountZero(s: string)
    ensures WordCount(s) == 0 <==> AllSpace(s)
    decreases |s|
  {
    if s != [] && IsSpace(s[0]) {
      WordCountZero(s[1..]);
      assert AllSpace(s) <==> AllSpace(s[1..]);
    }
  }

  /** Leading whitespace is ignored. */
  lemma {:induction false} SplitPadLeft(ws: string, s: string)
    requires AllSpace(ws)
    ensures Split(ws + s) == Split(s)
  {
    if ws == [] {
      assert ws + s == s;
    } else {
      var t := ws + s;
      assert t[0] == ws[0] && t[1..] == ws[1..] + s;
      SplitPadLeft(ws[1..], s);
    }
  }

  /** Trailing whitespace is ignored. */
  lemma {:induction false} SplitPadRight(s: string, ws: string)
    requires AllSpace(ws)
    ensures Split(s + ws) == Split(s)
    decreases |s|
  {
    var t := s + ws;
    if s == [] {
      assert t == ws && ws + [] == ws;
      SplitPadLeft(ws, []);
    } else if IsSpace(s[0]) {
      assert t[0] == s[0] && t[1..] == s[1..] + ws;
      SplitPadRight(s[1..], ws);
    } else {
      assert t[0] == s[0];
      RunEndAppend(s, ws, 0, NotSpace);
      var n := RunEnd(s, 0, NotSpace);
      assert t[..n] == s[..n] && t[n..] == s[n..] + ws;
      SplitPadRight(s[n..], ws);
    }
  }

  /** Widening a whitespace run (inserting more whitespace after a whitespace
      character) does not change the words. */
  lemma {:induction false} SplitWiden(a: string, c: char, ws: string, b: string)
    requires IsSpace(c) && AllSpace(ws)
    ensures Split(a + [c] + ws + b) == Split(a + [c] + b)
    decreases |a|
  {
    var narrow := a + [c] + b;
    var wide := a + [c] + ws + b;
    if a == [] {
      assert narrow[1..] == b && wide[1..] == ws + b;
      SplitPadLeft(ws, b);
    } else if IsSpace(a[0]) {
      assert narrow[0] == a[0] && narrow[1..] == a[1..] + [c] + b;
      assert wide[0] == a[0] && wide[1..] == a[1..] + [c] + ws + b;
      SplitWiden(a[1..], c, ws, b);
    } else {
      assert narrow[0] == a[0] && wide[0] == a[0];
      assert narrow == a + ([c] + b) && wide == a + ([c] + ws + b);
      RunEndAppend(a, [c] + b, 0, NotSpace);
      RunEndAppend(a, [c] + ws + b, 0, NotSpace);
      var n := RunEnd(a, 0, NotSpace);
      assert narrow[..n] == a[..n] && wide[..n] == a[..n];
      assert narrow[n..] == a[n..] + [c] + b;
      assert wide[n..] == a[n..] + [c] + ws + b;
      SplitWiden(a[n..], c, ws, b);
    }
  }

  /** A word at the front, ended by whitespace or by the end of the string,
      is split off whole. */
  lemma SplitFirstWord(w: string, rest: string)
    requires w != [] && forall k | 0 <= k < |w| :: !IsSpace(w[k])
    requires rest == [] || IsSpace(rest[0])
    ensures Split(w + rest) == [w] + Split(rest)
  {
    var s := w + rest;
    RunEndWhole(w, 0, NotSpace);
    RunEndAppend(w, rest, 0, NotSpace);
    assert s[..|w|] == w && s[|w|..] == rest;
  }

  lemma WordCountExamples()
    ensures WordCount("") == 0
    ensures WordCount("level") == 1
  {
    var n := RunEnd("level", 0, NotSpace);
    assert n == 5;
    assert "level"[5..] == [];
  }

  /** Three words separated by whitespace runs, with whitespace around
      them, split into exactly those three words. */
  lemma SplitThreeWords(ws0: string, w1: string, ws1: string, w2: string, ws2: string, w3: string, ws3: string)
    requires AllSpace(ws0) && AllSpace(ws1) && AllSpace(ws2) && AllSpace(ws3)
    requires ws1 != [] && ws2 != []
    requires forall w | w in [w1, w2, w3] :: w != [] && forall k | 0 <= k < |w| :: !IsSpace(w[k])
    ensures Split(ws0 + (w1 + (ws1 + (w2 + (ws2 + (w3 + ws3)))))) == [w1, w2, w3]
  {
    assert w1 in [w1, w2, w3] && w2 in [w1, w2, w3] && w3 in [w1, w2, w3];
    var c := w3 + ws3;
    var b := w2 + (ws2 + c);
    var a := w1 + (ws1 + b);
    SplitPadLeft(ws0, a);
    SplitFirstWord(w1, ws1 + b);
    SplitPadLeft(ws1, b);
    SplitFirstWord(w2, ws2 + c);
    SplitPadLeft(ws2, c);
    SplitFirstWord(w3, ws3);
    assert ws3 == ws3 + [];
    SplitPadLeft(ws3, []);
  }

  /** Runs of whitespace of any length separate words, and whitespace at
      either end yields no empty word. */
  lemma WordCountSpacedExample(s: string)
    requires s == "  a  b   c "
    ensures Split(s) == ["a", "b", "c"]
    ensures WordCount(s) == 3
  {
    assert s == "  " + ("a" + ("  " + ("b" + ("   " + ("c" + " ")))));
    SplitThreeWords("  ", "a", "  ", "b", "   ", "c", " ");
  }

  /** The number of occurrences of `c` in `s`. */
  function Occurrences(s: string, c: char): nat {
    multiset(s)[c]
  }

  /** The dictionary `character_frequency_map` is meant to build: every
      character of `s` mapped to its number of occurrences. */
  function Frequencies(s: string): map<char, nat> {
    map c | c in CharSet(s) :: Occurrences(s, c)
  }

  /** Appending one character bumps its count, starting from 0 if absent. */
  lemma FrequenciesSnoc(p: string, ch: char)
    ensures Frequencies(p + [ch]) ==
            Frequencies(p)[ch := (if ch in Frequencies(p) then Frequencies(p)[ch] else 0) + 1]
  {
    CharSetSnoc(p, ch);
    assert multiset(p + [ch]) == multiset(p) + multiset{ch};
  }

  /** `character_frequency_map(s)` (helper.py:54-60): a loop over the
      characters that updates the dictionary in place. */
  method CharacterFrequencyMap(s: string) returns (freq: map<char, nat>)
    ensures freq == Frequencies(s)
  {
    freq := map[];
    for i := 0 to |s|
      invariant freq == Frequencies(s[..i])
    {
      var ch := s[i];
      assert s[..i + 1] == s[..i] + [ch];
      FrequenciesSnoc(s[..i], ch);
      freq := freq[ch := (if ch in freq then freq[ch] else 0) + 1];
    }
    assert s[..|s|] == s;
  }

  /** The keys of the frequency map are exactly the distinct characters. */
  lemma FrequencyKeys(s: string)
    ensures Frequencies(s).Keys == CharSet(s)
    ensures |Frequencies(s)| == UniqueCharacters(s)
    ensures forall c | c in Frequencies(s) :: Frequencies(s)[c] >= 1
  {
  }

  /** Counts are case-sensitive and cover the original characters. */
  lemma FrequencyExample()
    ensures Frequencies("aab") == map['a' := 2, 'b' := 1]
  {
    assert CharSet("aab") == {'a', 'b'};
    assert multiset("aab") == multiset{'a', 'a', 'b'};
  }

  /** Some key of a non-empty map, chosen once and for all. */
  ghost function PickKey(m: map<char, nat>): (k: char)
    requires m != map[]
    ensures k in m
  {
    var k :| k in m; k
  }

  /** The sum of the values of a map. */
  ghost function SumValues(m: map<char, nat>): nat
    decreases |m|
  {
    if m == map[] then 0
    else
      var k := PickKey(m);
      assert |m - {k}| < |m| by { assert (m - {k}).Keys == m.Keys - {k}; }
      m[k] + SumValues(m - {k})
  }

  /** The sum does not depend on which key is taken out first. */
  lemma {:induction false} SumValuesRemove(m: map<char, nat>, k: char)
    requires k in m
    ensures SumValues(m) == m[k] + SumValues(m - {k})
    decreases |m|
  {
    var j := PickKey(m);
    if j != k {
      assert (m - {j}).Keys == m.Keys - {j};
      assert (m - {k}).Keys == m.Keys - {k};
      SumValuesRemove(m - {j}, k);
      SumValuesRemove(m - {k}, j);
      assert m - {j} - {k} == m - {k} - {j};
    }
  }

  /** Counting one more occurrence of `ch` adds one to the sum. */
  lemma SumValuesBump(m: map<char, nat>, ch: char)
    ensures SumValues(m[ch := (if ch in m then m[ch] else 0) + 1]) == SumValues(m) + 1
  {
    var after := m[ch := (if ch in m then m[ch] else 0) + 1];
    SumValuesRemove(after, ch);
    if ch in m {
      SumValuesRemove(m, ch);
      assert after - {ch} == m - {ch};
    } else {
      assert after - {ch} == m;
    }
  }

  /** The counts of `character_frequency_map(s)` add up to `len(s)`. */
  lemma {:induction false} FrequencySum(s: string)
    ensures SumValues(Frequencies(s)) == Length(s)
    decreases |s|
  {
    if s != [] {
      var p, ch := s[..|s| - 1], s[|s| - 1];
      assert s == p + [ch];
      FrequencySum(p);
      FrequenciesSnoc(p, ch);
      SumValuesBump(Frequencies(p), ch);
    }
  }
}

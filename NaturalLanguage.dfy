/** The natural-language interpreter of `filter_by_natural_language`
    (strings.py:104-171): the query text is lowercased and trimmed, then a
    fixed, ordered list of lexical rules each may add to the store query and
    to the report of what was understood. Every regular expression of the
    source is a hand-written matcher anchored at one position, and
    `re.search` is the scan for the leftmost position where it matches. */
module NaturalLanguage {
  import opened Wrappers
  import opened PyText
  import opened Filters
  import opened Documents

  /** The first position at or after `from` where the anchored matcher `m`
      succeeds: every earlier position fails. */
  function SearchFrom<T>(t: string, m: (string, nat) -> Option<T>, from: nat): (r: Option<nat>)
    requires from <= |t|
    ensures r.Some? ==> from <= r.value < |t| && m(t, r.value).Some?
    ensures forall i | from <= i < (if r.Some? then r.value else |t|) :: m(t, i).None?
    decreases |t| - from
  {
    if from == |t| then None
    else if m(t, from).Some? then Some(from)
    else SearchFrom(t, m, from + 1)
  }

  /** `re.search`: what the leftmost match of `m` in `t` captures. */
  function Search<T>(t: string, m: (string, nat) -> Option<T>): Option<T> {
    match SearchFrom(t, m, 0)
    case Some(i) => m(t, i)
    case None => None
  }

  /** A match at `i` with no match before it is what `re.search` returns. */
  lemma SearchLeftmost<T>(t: string, m: (string, nat) -> Option<T>, i: nat)
    requires i < |t| && m(t, i).Some?
    requires forall j | 0 <= j < i :: m(t, j).None?
    ensures Search(t, m) == m(t, i)
  {
  }

  /** `re.search` finds nothing exactly when no position matches. */
  lemma SearchNone<T>(t: string, m: (string, nat) -> Option<T>)
    ensures Search(t, m).None? <==> forall i | 0 <= i < |t| :: m(t, i).None?
  {
  }

  // ---- the anchored matchers ----

  /** `(\d+)` at `k`, greedy, converted with `int()`. */
  function DigitsAt(t: string, k: nat): Option<nat> {
    if k < |t| && IsDigit(t[k]) then
      var j := RunEnd(t, k, IsDigit);
      RunEndSpan(t, k, IsDigit);
      Some(DecimalValue(t[k..j]))
    else None
  }

  /** `(\d+)\s+word` at `i`. */
  function WordCountAt(t: string, i: nat): Option<nat> {
    if i < |t| && IsDigit(t[i]) then
      var j := RunEnd(t, i, IsDigit);
      var k := RunEnd(t, j, IsSpace);
      if j < k && LiteralAt(t, k, "word") then DigitsAt(t, i) else None
    else None
  }

  /** `\s+(?:than\s+)?(\d+)` at `p`. The optional group is greedy: the branch
      through "than" is tried first, and the group is skipped only when that
      branch fails. */
  function NumberAfter(t: string, p: nat): Option<nat> {
    if |t| <= p then None
    else
      var j := RunEnd(t, p, IsSpace);
      if j == p then None
      else
        var viaThan :=
          if LiteralAt(t, j, "than") && RunEnd(t, j + 4, IsSpace) > j + 4
          then DigitsAt(t, RunEnd(t, j + 4, IsSpace))
          else None;
        if viaThan.Some? then viaThan else DigitsAt(t, j)
  }

  /** `(?:kw1|kw2|...)\s+(?:than\s+)?(\d+)` at `i`: the alternatives are
      tried in order. */
  function KeywordNumberAt(t: string, i: nat, keywords: seq<string>): Option<nat>
    decreases |keywords|
  {
    if keywords == [] then None
    else if LiteralAt(t, i, keywords[0]) && NumberAfter(t, i + |keywords[0]|).Some?
    then NumberAfter(t, i + |keywords[0]|)
    else KeywordNumberAt(t, i, keywords[1..])
  }

  const LongerKeywords: seq<string> := ["longer", "greater", "above", "more than"]
  const ShorterKeywords: seq<string> := ["shorter", "less than", "under"]

  function LongerAt(t: string, i: nat): Option<nat> {
    KeywordNumberAt(t, i, LongerKeywords)
  }

  function ShorterAt(t: string, i: nat): Option<nat> {
    KeywordNumberAt(t, i, ShorterKeywords)
  }

  /** ` (\w)` at `p`. */
  function LetterAt(t: string, p: nat): Option<char> {
    if LiteralAt(t, p, " ") && p + 1 < |t| && IsWordChar(t[p + 1]) then Some(t[p + 1]) else None
  }

  /** `(?: the letter)? (\w)` at `p`, the optional phrase tried first. */
  function LetterTail(t: string, p: nat): Option<char> {
    if LiteralAt(t, p, " the letter") && LetterAt(t, p + 11).Some? then LetterAt(t, p + 11)
    else LetterAt(t, p)
  }

  /** `contain(?:s|ing)?(?: the letter)? (\w)` at `i`: the suffix "s", then
      "ing", then no suffix. */
  function CharacterAt(t: string, i: nat): Option<char> {
    if !LiteralAt(t, i, "contain") then None
    else
      var p := i + 7;
      if LiteralAt(t, p, "s") && LetterTail(t, p + 1).Some? then LetterTail(t, p + 1)
      else if LiteralAt(t, p, "ing") && LetterTail(t, p + 3).Some? then LetterTail(t, p + 3)
      else LetterTail(t, p)
  }

  // ---- the rules, in the order the handler applies them ----

  /** `query.lower().strip()`. */
  function Normalize(query: string): string {
    Strip(LowerStr(query))
  }

  /** What the handler's tests find in the normalized text: the substring
      tests and the leftmost matches of its four regular expressions. */
  datatype Scan = Scan(
    palindrome: bool,         // "palindrome" or "palindromic" occurs
    notPalindrome: bool,      // "not palindrome" occurs
    singleWord: bool,         // "single word" or "one word" occurs
    wordMatch: Option<nat>,   // `(\d+)\s+word`
    longer: Option<nat>,      // `(?:longer|greater|above|more than)\s+(?:than\s+)?(\d+)`
    shorter: Option<nat>,     // `(?:shorter|less than|under)\s+(?:than\s+)?(\d+)`
    character: Option<char>,  // `contain(?:s|ing)?(?: the letter)? (\w)`
    vowel: bool)              // "first vowel" or "vowel" occurs

  function ScanOf(t: string): Scan {
    Scan(
      Contains(t, "palindrome") || Contains(t, "palindromic"),
      Contains(t, "not palindrome"),
      Contains(t, "single word") || Contains(t, "one word"),
      Search(t, WordCountAt),
      Search(t, LongerAt),
      Search(t, ShorterAt),
      Search(t, CharacterAt),
      Contains(t, "first vowel") || Contains(t, "vowel"))
  }

  /** `parsed_filters`: which filters were understood, and their values. */
  datatype Report = Report(
    isPalindrome: Option<bool>,
    wordCount: Option<int>,
    minLength: Option<int>,
    maxLength: Option<int>,
    containsCharacter: Option<string>)

  const EmptyReport := Report(None, None, None, None, None)

  /** What the report shows when the vowel shortcut fires. */
  const AnyVowel := "a (any vowel)"

  datatype Interpretation = Interpretation(query: StoreQuery, report: Report)

  datatype InterpretError = ConflictingFilters | UnparseableQuery

  /** The palindrome filter (strings.py:109-114), including its `elif`. */
  function PalindromeFilter(s: Scan): Option<bool> {
    if s.palindrome then Some(true)
    else if s.notPalindrome then Some(false)
    else None
  }

  /** The word-count filter (strings.py:117-124). */
  function WordCountFilter(s: Scan): Option<int> {
    if s.singleWord then Some(1)
    else if s.wordMatch.Some? then Some(s.wordMatch.value as int)
    else None
  }

  /** `val + 1` for the number after "longer" (strings.py:137-139). */
  function MinLength(s: Scan): Option<int> {
    if s.longer.Some? then Some(s.longer.value as int + 1) else None
  }

  /** `val - 1` for the number after "shorter" (strings.py:141-143). */
  function MaxLength(s: Scan): Option<int> {
    if s.shorter.Some? then Some(s.shorter.value as int - 1) else None
  }

  /** The store query the handler builds from a scan. */
  function QueryOf(s: Scan): StoreQuery {
    StoreQuery(
      PalindromeFilter(s),
      if s.longer.Some? || s.shorter.Some? then Some(LengthBounds(MinLength(s), MaxLength(s))) else None,
      WordCountFilter(s),
      if s.character.Some? then Some([s.character.value]) else if s.vowel then Some(VowelClass) else None)
  }

  /** The report the handler builds from a scan. */
  function ReportOf(s: Scan): Report {
    Report(
      PalindromeFilter(s),
      WordCountFilter(s),
      MinLength(s),
      MaxLength(s),
      if s.vowel then Some(AnyVowel) else if s.character.Some? then Some([s.character.value]) else None)
  }

  predicate Conflicting(report: Report) {
    report.minLength.Some? && report.maxLength.Some? && report.minLength.value > report.maxLength.value
  }

  /** The interpreter as a whole: the store query and the report, or the
      error that ends the request before the store is queried. */
  function Interpret(query: string): Result<Interpretation, InterpretError> {
    Decide(ScanOf(Normalize(query)))
  }

  /** The decisions taken on what the scan found: the conflict check first,
      then the check that something was understood. */
  function Decide(s: Scan): Result<Interpretation, InterpretError> {
    var report := ReportOf(s);
    if Conflicting(report) then Failure(ConflictingFilters)
    else if report == EmptyReport then Failure(UnparseableQuery)
    else Success(Interpretation(QueryOf(s), report))
  }

  /** The handler's building of `mongo_query` and `parsed_filters`
      (strings.py:105-160), one key at a time, from what the scan found. */
  method BuildFilters(s: Scan) returns (mongoQuery: StoreQuery, parsedFilters: Report)
    ensures mongoQuery == QueryOf(s) && parsedFilters == ReportOf(s)
  {
    mongoQuery := EmptyQuery;
    parsedFilters := EmptyReport;

    if s.palindrome {
      mongoQuery := mongoQuery.(isPalindrome := Some(true));
      parsedFilters := parsedFilters.(isPalindrome := Some(true));
    } else if s.notPalindrome {
      mongoQuery := mongoQuery.(isPalindrome := Some(false));
      parsedFilters := parsedFilters.(isPalindrome := Some(false));
    }

    if s.singleWord {
      mongoQuery := mongoQuery.(wordCount := Some(1));
      parsedFilters := parsedFilters.(wordCount := Some(1));
    } else if s.wordMatch.Some? {
      var n: int := s.wordMatch.value;
      mongoQuery := mongoQuery.(wordCount := Some(n));
      parsedFilters := parsedFilters.(wordCount := Some(n));
    }

    if s.longer.Some? || s.shorter.Some? {
      mongoQuery := mongoQuery.(length := Some(LengthBounds(None, None)));
      if s.longer.Some? {
        var val: int := s.longer.value;
        mongoQuery := mongoQuery.(length := Some(mongoQuery.length.value.(gte := Some(val + 1))));
        parsedFilters := parsedFilters.(minLength := Some(val + 1));
      }
      if s.shorter.Some? {
        var val: int := s.shorter.value;
        mongoQuery := mongoQuery.(length := Some(mongoQuery.length.value.(lte := Some(val - 1))));
        parsedFilters := parsedFilters.(maxLength := Some(val - 1));
      }
    }

    if s.character.Some? {
      var c := [s.character.value];
      mongoQuery := mongoQuery.(valuePattern := Some(c));
      parsedFilters := parsedFilters.(containsCharacter := Some(c));
    }

    if s.vowel {
      if mongoQuery.valuePattern.None? {
        mongoQuery := mongoQuery.(valuePattern := Some(VowelClass));
      }
      parsedFilters := parsedFilters.(containsCharacter := Some(AnyVowel));
    }
  }

  /** The handler's interpretation steps (strings.py:104-171): normalize,
      scan, build, then the two checks that end the request early. */
  method ParseQuery(query: string) returns (r: Result<Interpretation, InterpretError>)
    ensures r == Interpret(query)
  {
    var t := Normalize(query);
    var mongoQuery, parsedFilters := BuildFilters(ScanOf(t));
    if parsedFilters.minLength.Some? && parsedFilters.maxLength.Some?
       && parsedFilters.minLength.value > parsedFilters.maxLength.value {
      return Failure(ConflictingFilters);
    }
    if parsedFilters == EmptyReport {
      return Failure(UnparseableQuery);
    }
    r := Success(Interpretation(mongoQuery, parsedFilters));
  }

  // ---- properties of the interpreter ----

  /** Whitespace around the query is ignored. */
  lemma NormalizePadded(ws1: string, query: string, ws2: string)
    requires AllSpace(ws1) && AllSpace(ws2)
    ensures Normalize(ws1 + query + ws2) == Normalize(query)
  {
    LowerStrConcat(ws1 + query, ws2);
    LowerStrConcat(ws1, query);
    LowerStrAllSpace(ws1);
    LowerStrAllSpace(ws2);
    StripPadded(ws1, LowerStr(query), ws2);
  }

  lemma InterpretPadded(ws1: string, query: string, ws2: string)
    requires AllSpace(ws1) && AllSpace(ws2)
    ensures Interpret(ws1 + query + ws2) == Interpret(query)
  {
    NormalizePadded(ws1, query, ws2);
  }

  /** The query is read case-insensitively. */
  lemma InterpretLowered(query: string)
    ensures Interpret(LowerStr(query)) == Interpret(query)
  {
    LowerStrIdempotent(query);
  }

  /** The normalized text holds no upper-case letter. */
  lemma NormalizedIsLower(query: string, k: nat)
    requires k < |Normalize(query)|
    ensures !IsUpper(Normalize(query)[k])
  {
    StripChar(LowerStr(query), k);
  }

  /** Text containing "not palindrome" contains "palindrome", so the `elif`
      branch of the palindrome rule is never taken. */
  lemma NotPalindromeImpliesPalindrome(t: string)
    ensures ScanOf(t).notPalindrome ==> ScanOf(t).palindrome
  {
    if Contains(t, "not palindrome") {
      ContainsSlice(t, "not palindrome", 4, 14);
      assert "not palindrome"[4..14] == "palindrome";
    }
  }

  lemma PalindromeFilterNeverFalse(t: string)
    ensures PalindromeFilter(ScanOf(t)) != Some(false)
  {
    NotPalindromeImpliesPalindrome(t);
  }

  /** A match of `(\d+)\s+word` that starts inside a run of digits also
      matches one position earlier. */
  lemma WordCountAtExtends(t: string, i: nat)
    requires 0 < i < |t| && IsDigit(t[i - 1]) && WordCountAt(t, i).Some?
    ensures WordCountAt(t, i - 1).Some?
  {
    assert RunEnd(t, i - 1, IsDigit) == RunEnd(t, i, IsDigit);
  }

  /** The leftmost match of `(\d+)\s+word` starts where a run of digits
      starts, so the number it captures is the whole run: "12 words" counts
      12 words, not 2. */
  lemma WordCountWholeRun(t: string)
    ensures var r := SearchFrom(t, WordCountAt, 0);
      r.Some? && r.value > 0 ==> !IsDigit(t[r.value - 1])
  {
    var r := SearchFrom(t, WordCountAt, 0);
    if r.Some? && r.value > 0 && IsDigit(t[r.value - 1]) {
      WordCountAtExtends(t, r.value);
      assert false;
    }
  }

  /** The letter the character rule captures comes from the text and is a
      word character. */
  lemma CharacterAtFromText(t: string, i: nat)
    requires CharacterAt(t, i).Some?
    ensures CharacterAt(t, i).value in t && IsWordChar(CharacterAt(t, i).value)
  {
  }

  /** The captured letter is a lower-case word character. */
  lemma CharacterIsLowerWordChar(query: string)
    ensures var c := ScanOf(Normalize(query)).character;
      c.Some? ==> IsWordChar(c.value) && !IsUpper(c.value)
  {
    var t := Normalize(query);
    var r := SearchFrom(t, CharacterAt, 0);
    if r.Some? {
      CharacterAtFromText(t, r.value);
      var k :| 0 <= k < |t| && t[k] == CharacterAt(t, r.value).value;
      NormalizedIsLower(query, k);
    }
  }

  /** The request fails with conflicting filters exactly when both bounds
      were found and the shorter-than number is at most one more than the
      longer-than number. */
  lemma ConflictIff(query: string)
    ensures var s := ScanOf(Normalize(query));
      Interpret(query) == Failure(ConflictingFilters) <==>
        s.longer.Some? && s.shorter.Some? && s.shorter.value <= s.longer.value + 1
  {
  }

  /** The query is unparseable exactly when none of the rules fires. */
  lemma UnparseableIff(query: string)
    ensures var s := ScanOf(Normalize(query));
      Interpret(query) == Failure(UnparseableQuery) <==>
        && !s.palindrome && !s.singleWord && s.wordMatch.None?
        && s.longer.None? && s.shorter.None? && s.character.None? && !s.vowel
  {
    NotPalindromeImpliesPalindrome(Normalize(query));
    DecideUnparseableIff(ScanOf(Normalize(query)));
  }

  /** The same, for any scan in which "not palindrome" implies "palindrome". */
  lemma DecideUnparseableIff(s: Scan)
    requires s.notPalindrome ==> s.palindrome
    ensures Decide(s) == Failure(UnparseableQuery) <==>
      && !s.palindrome && !s.singleWord && s.wordMatch.None?
      && s.longer.None? && s.shorter.None? && s.character.None? && !s.vowel
  {
  }

  /** What a successful interpretation holds: sensible bounds, a store query
      that agrees with the report, and a pattern that differs from the
      reported character only under the vowel shortcut. */
  lemma InterpretationAgrees(query: string)
    requires Interpret(query).Success?
    ensures var i := Interpret(query).value;
      && i.report != EmptyReport
      && i.report.isPalindrome != Some(false)
      && i.query.isPalindrome == i.report.isPalindrome
      && i.query.wordCount == i.report.wordCount
      && (i.report.wordCount.Some? ==> i.report.wordCount.value >= 0)
      && (i.report.minLength.Some? ==> i.report.minLength.value >= 1)
      && (i.report.maxLength.Some? ==> i.report.maxLength.value >= -1)
      && (i.report.minLength.Some? && i.report.maxLength.Some? ==>
            i.report.minLength.value <= i.report.maxLength.value)
      && (i.query.length.Some? <==> i.report.minLength.Some? || i.report.maxLength.Some?)
      && (i.query.length.Some? ==> i.query.length.value == LengthBounds(i.report.minLength, i.report.maxLength))
      && (i.query.valuePattern.Some? <==> i.report.containsCharacter.Some?)
      && (i.query.valuePattern.Some? ==> i.query.valuePattern.value != [])
      && (i.report.containsCharacter == Some(AnyVowel) || i.query.valuePattern == i.report.containsCharacter)
  {
    PalindromeFilterNeverFalse(Normalize(query));
    DecisionAgrees(ScanOf(Normalize(query)));
  }

  /** The same, for any scan whose palindrome filter is not `False`. */
  lemma DecisionAgrees(s: Scan)
    requires Decide(s).Success? && PalindromeFilter(s) != Some(false)
    ensures var i := Decide(s).value;
      && i.report != EmptyReport
      && i.report.isPalindrome != Some(false)
      && i.query.isPalindrome == i.report.isPalindrome
      && i.query.wordCount == i.report.wordCount
      && (i.report.wordCount.Some? ==> i.report.wordCount.value >= 0)
      && (i.report.minLength.Some? ==> i.report.minLength.value >= 1)
      && (i.report.maxLength.Some? ==> i.report.maxLength.value >= -1)
      && (i.report.minLength.Some? && i.report.maxLength.Some? ==>
            i.report.minLength.value <= i.report.maxLength.value)
      && (i.query.length.Some? <==> i.report.minLength.Some? || i.report.maxLength.Some?)
      && (i.query.length.Some? ==> i.query.length.value == LengthBounds(i.report.minLength, i.report.maxLength))
      && (i.query.valuePattern.Some? <==> i.report.containsCharacter.Some?)
      && (i.query.valuePattern.Some? ==> i.query.valuePattern.value != [])
      && (i.report.containsCharacter == Some(AnyVowel) || i.query.valuePattern == i.report.containsCharacter)
  {
  }

  /** The store query of a successful interpretation selects exactly the
      documents the structured filter of `GET /strings` would select for
      the reported values, with the query's own pattern as the character
      filter. */
  lemma InterpretedQueryMeaning(query: string, d: Document)
    requires Interpret(query).Success?
    ensures var i := Interpret(query).value;
      Matches(d, i.query) <==>
        SatisfiesParams(d, FilterParams(i.report.isPalindrome, i.report.minLength,
          i.report.maxLength, i.report.wordCount, i.query.valuePattern))
  {
    InterpretationAgrees(query);
    var i := Interpret(query).value;
    MatchesParams(d, i.query, FilterParams(i.report.isPalindrome, i.report.minLength,
      i.report.maxLength, i.report.wordCount, i.query.valuePattern));
  }

  /** Under the vowel shortcut the report shows "a (any vowel)", but a
      character found by the `contain` rule stays the store's pattern. */
  lemma VowelShortcutKeepsCharacter(t: string)
    requires ScanOf(t).vowel && ScanOf(t).character.Some?
    ensures ReportOf(ScanOf(t)).containsCharacter == Some(AnyVowel)
    ensures QueryOf(ScanOf(t)).valuePattern == Some([ScanOf(t).character.value])
  {
  }

  // ---- what each rule needs of the text ----

  /** A rule whose phrases all hold a letter the text lacks does not fire:
      no 'p', no palindrome filter. */
  lemma ScanWithoutP(t: string)
    requires forall i | 0 <= i < |t| :: t[i] != 'p'
    ensures !ScanOf(t).palindrome && !ScanOf(t).notPalindrome
  {
    AbsentCharNotContained(t, "palindrome", 0);
    AbsentCharNotContained(t, "palindromic", 0);
    AbsentCharNotContained(t, "not palindrome", 4);
  }

  /** No 'w', no word-count filter. */
  lemma ScanWithoutW(t: string)
    requires forall i | 0 <= i < |t| :: t[i] != 'w'
    ensures !ScanOf(t).singleWord && ScanOf(t).wordMatch.None?
  {
    AbsentCharNotContained(t, "single word", 7);
    AbsentCharNotContained(t, "one word", 4);
    AbsentCharNotContained(t, "word", 0);
    ContainsSpec(t, "word");
    SearchNone(t, WordCountAt);
  }

  /** No 'v', no vowel shortcut. */
  lemma ScanWithoutV(t: string)
    requires forall i | 0 <= i < |t| :: t[i] != 'v'
    ensures !ScanOf(t).vowel
  {
    AbsentCharNotContained(t, "first vowel", 6);
    AbsentCharNotContained(t, "vowel", 0);
  }

  /** No 'c', no character filter. */
  lemma ScanWithoutC(t: string)
    requires forall i | 0 <= i < |t| :: t[i] != 'c'
    ensures ScanOf(t).character.None?
  {
    AbsentCharNotContained(t, "contain", 0);
    ContainsSpec(t, "contain");
    SearchNone(t, CharacterAt);
  }

  /** Where no keyword starts, the keyword rule does not match. */
  lemma KeywordMiss(t: string, i: nat, keywords: seq<string>)
    requires forall k | 0 <= k < |keywords| :: !LiteralAt(t, i, keywords[k])
    ensures KeywordNumberAt(t, i, keywords).None?
    decreases |keywords|
  {
    if keywords != [] {
      KeywordMiss(t, i, keywords[1..]);
    }
  }

  /** The keyword rule matches nowhere in `[m, n)` when every keyword
      differs from the text near every position there. */
  lemma KeywordMissBetween(t: string, m: nat, n: nat, keywords: seq<string>)
    requires forall j, k | m <= j < n && 0 <= k < |keywords| :: DiffersNear(t, j, keywords[k])
    ensures forall j | m <= j < n :: KeywordNumberAt(t, j, keywords).None?
  {
    forall j | m <= j < n
      ensures KeywordNumberAt(t, j, keywords).None?
    {
      forall k | 0 <= k < |keywords|
        ensures !LiteralAt(t, j, keywords[k])
      {
        DiffersNearMiss(t, j, keywords[k]);
      }
      KeywordMiss(t, j, keywords);
    }
  }

  /** The same for the character rule and its word "contain". */
  lemma CharacterMissBetween(t: string, m: nat, n: nat)
    requires forall j | m <= j < n :: DiffersNear(t, j, "contain")
    ensures forall j | m <= j < n :: CharacterAt(t, j).None?
  {
    forall j | m <= j < n
      ensures CharacterAt(t, j).None?
    {
      DiffersNearMiss(t, j, "contain");
    }
  }

  /** `(\d+)` captures a whole run of digits. */
  lemma DigitsAtRun(t: string, a: string, d: string, b: string)
    requires t == a + d + b
    requires d != [] && AllDigits(d) && (b == [] || !IsDigit(b[0]))
    ensures DigitsAt(t, |a|) == Some(DecimalValue(d))
  {
    assert t == (a + d) + b;
    RunEndWhole(a + d, |a|, IsDigit);
    RunEndAppend(a + d, b, |a|, IsDigit);
    assert t[|a|..|a| + |d|] == d;
  }

  /** After a keyword, " than " and a run of digits give that number. */
  lemma NumberAfterThan(t: string, a: string, d: string, b: string)
    requires t == a + " than " + d + b
    requires d != [] && AllDigits(d) && (b == [] || !IsDigit(b[0]))
    ensures NumberAfter(t, |a|) == Some(DecimalValue(d))
  {
    assert t == a + " " + "than" + (" " + d + b);
    LiteralAtJoin(a + " ", "than", " " + d + b);
    assert t == (a + " than ") + d + b;
    DigitsAtRun(t, a + " than ", d, b);
    assert t[|a|] == ' ' && t[|a| + 1] == 't' && t[|a| + 5] == ' ' && IsDigit(t[|a| + 6]);
    assert RunEnd(t, |a|, IsSpace) == |a| + 1;
    assert RunEnd(t, |a| + 5, IsSpace) == |a| + 6;
  }

  /** "longer than N" matches where it starts and captures N. */
  lemma LongerThanAt(t: string, a: string, d: string, b: string)
    requires t == a + "longer than " + d + b
    requires d != [] && AllDigits(d) && (b == [] || !IsDigit(b[0]))
    ensures LongerAt(t, |a|) == Some(DecimalValue(d))
  {
    assert t == a + "longer" + (" than " + d + b);
    LiteralAtJoin(a, "longer", " than " + d + b);
    assert t == (a + "longer") + " than " + d + b;
    NumberAfterThan(t, a + "longer", d, b);
  }

  /** "shorter than N" matches where it starts and captures N. */
  lemma ShorterThanAt(t: string, a: string, d: string, b: string)
    requires t == a + "shorter than " + d + b
    requires d != [] && AllDigits(d) && (b == [] || !IsDigit(b[0]))
    ensures ShorterAt(t, |a|) == Some(DecimalValue(d))
  {
    assert t == a + "shorter" + (" than " + d + b);
    LiteralAtJoin(a, "shorter", " than " + d + b);
    assert t == (a + "shorter") + " than " + d + b;
    NumberAfterThan(t, a + "shorter", d, b);
  }

  /** Text already in normal form is left alone. */
  lemma NormalizeFixed(t: string)
    requires t != [] && !IsSpace(t[0]) && !IsSpace(t[|t| - 1])
    requires forall k | 0 <= k < |t| :: !IsUpper(t[k])
    ensures Normalize(t) == t
  {
    assert LowerStr(t) == t;
  }
}

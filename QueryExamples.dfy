/** The interpreter of `filter_by_natural_language` on sample queries: what
    each rule captures, and the whole interpretation of a query. Each query
    is taken apart by small lemmas, one fact about the text at a time: the
    letters it lacks (which rule out whole rules), where each rule matches
    first, and what it captures there. */
module QueryExamples {
  import opened Wrappers
  import opened PyText
  import opened Filters
  import opened NaturalLanguage

  // ---- the matchers on sample text ----

  /** "longer than 5": the optional "than" is consumed and 5 is captured. */
  lemma LongerExample()
    ensures Search("longer than 5", LongerAt) == Some(5)
  {
    var t := "longer than 5";
    LiteralAtJoin([], "longer", " than 5");
    LiteralAtJoin("longer ", "than", " 5");
    assert t == [] + "longer" + " than 5" == "longer " + "than" + " 5";
    assert RunEnd(t, 6, IsSpace) == 7;
    assert RunEnd(t, 11, IsSpace) == 12;
    assert RunEnd(t, 12, IsDigit) == 13;
    assert t[12..13] == "5";
    assert DecimalValue("5") == 5 by { assert "5"[..0] == []; }
    assert DigitsAt(t, 12) == Some(5);
    assert LongerAt(t, 0) == Some(5);
    SearchLeftmost(t, LongerAt, 0);
  }

  /** "less than 10": the two-word keyword, then the number. */
  lemma ShorterExample()
    ensures Search("less than 10", ShorterAt) == Some(10)
  {
    var t := "less than 10";
    LiteralAtJoin([], "less than", " 10");
    assert t == [] + "less than" + " 10";
    assert !LiteralAt(t, 0, "shorter") by { assert t[0..7][0] == 'l'; }
    assert RunEnd(t, 9, IsSpace) == 10;
    assert !LiteralAt(t, 10, "than");
    assert RunEnd(t, 10, IsDigit) == 12;
    assert t[10..12] == "10";
    assert DecimalValue("10") == 10 by { assert "10"[..1] == "1"; assert "1"[..0] == []; }
    assert ShorterAt(t, 0) == Some(10);
    SearchLeftmost(t, ShorterAt, 0);
  }

  /** "12 words": the whole digit run is the count. */
  lemma WordCountExample()
    ensures Search("12 words", WordCountAt) == Some(12)
  {
    var t := "12 words";
    LiteralAtJoin("12 ", "word", "s");
    assert t == "12 " + "word" + "s";
    assert RunEnd(t, 0, IsDigit) == 2;
    assert RunEnd(t, 2, IsSpace) == 3;
    assert t[0..2] == "12";
    assert DecimalValue("12") == 12 by { assert "12"[..1] == "1"; assert "1"[..0] == []; }
    assert WordCountAt(t, 0) == Some(12);
    SearchLeftmost(t, WordCountAt, 0);
  }

  /** "containing the letter z" captures 'z'. */
  lemma LetterExample()
    ensures CharacterAt("containing the letter z", 0) == Some('z')
  {
    var t := "containing the letter z";
    ContainingPrefix(t, " the letter z");
    LetterTailExample();
  }

  /** "containing" opens the text: "contain" at 0, no "s" but "ing" at 7. */
  lemma ContainingPrefix(t: string, rest: string)
    requires t == "containing" + rest
    ensures LiteralAt(t, 0, "contain") && !LiteralAt(t, 7, "s") && LiteralAt(t, 7, "ing")
  {
    assert t == [] + "contain" + ("ing" + rest) == "contain" + "ing" + rest;
    LiteralAtJoin([], "contain", "ing" + rest);
    LiteralAtJoin("contain", "ing", rest);
    assert t[7..8][0] == 'i';
  }

  lemma LetterTailExample()
    ensures LetterTail("containing the letter z", 10) == Some('z')
  {
    var t := "containing the letter z";
    LiteralAtJoin("containing", " the letter", " z");
    LiteralAtJoin("containing the letter", " ", "z");
    assert t == "containing" + " the letter" + " z" == "containing the letter" + " " + "z";
    assert LetterAt(t, 21) == Some('z');
  }

  /** Without "letter", the regular expression still matches: "containing
      the z" captures the 't' of "the". */
  lemma TheExample()
    ensures CharacterAt("containing the z", 0) == Some('t')
  {
    var t := "containing the z";
    ContainingPrefix(t, " the z");
    LiteralAtJoin("containing", " ", "the z");
    assert t == "containing" + " " + "the z";
    assert !LiteralAt(t, 10, " the letter");
  }

  // ---- "find palindromic strings" ----

  /** Only the palindrome rule fires. */
  lemma PalindromicQuery(q: string)
    requires q == "find palindromic strings"
    ensures Interpret(q) ==
      Success(Interpretation(
        StoreQuery(Some(true), None, None, None),
        Report(Some(true), None, None, None, None)))
  {
    PalindromicNormal(q);
    PalindromicScan(q);
    PalindromicResult();
  }

  lemma PalindromicResult()
    ensures Decide(Scan(true, false, false, None, None, None, None, false)) ==
      Success(Interpretation(
        StoreQuery(Some(true), None, None, None),
        Report(Some(true), None, None, None, None)))
  {
  }

  lemma PalindromicNormal(t: string)
    requires t == "find palindromic strings"
    ensures Normalize(t) == t
  {
    NormalizeFixed(t);
  }

  lemma PalindromicLacks(t: string, c: char)
    requires t == "find palindromic strings"
    requires c in "wve"
    ensures forall i | 0 <= i < |t| :: t[i] != c
  {
  }

  lemma PalindromicScan(t: string)
    requires t == "find palindromic strings"
    ensures ScanOf(t) == Scan(true, false, false, None, None, None, None, false)
  {
    PalindromicFound(t);
    PalindromicLacks(t, 'e');
    AbsentCharNotContained(t, "not palindrome", 13);
    PalindromicLacks(t, 'w');
    ScanWithoutW(t);
    PalindromicLacks(t, 'v');
    ScanWithoutV(t);
    PalindromicNoLength(t);
    PalindromicNoCharacter(t);
  }

  lemma PalindromicFound(t: string)
    requires t == "find palindromic strings"
    ensures Contains(t, "palindromic")
  {
    assert t == "find " + "palindromic" + " strings";
    LiteralAtJoin("find ", "palindromic", " strings");
    ContainsSpec(t, "palindromic");
  }

  lemma PalindromicNoLength(t: string)
    requires t == "find palindromic strings"
    ensures Search(t, LongerAt).None? && Search(t, ShorterAt).None?
  {
    KeywordMissBetween(t, 0, |t|, LongerKeywords);
    KeywordMissBetween(t, 0, |t|, ShorterKeywords);
    SearchNone(t, LongerAt);
    SearchNone(t, ShorterAt);
  }

  lemma PalindromicNoCharacter(t: string)
    requires t == "find palindromic strings"
    ensures Search(t, CharacterAt).None?
  {
    CharacterMissBetween(t, 0, |t|);
    SearchNone(t, CharacterAt);
  }

  // ---- "strings longer than 10 and shorter than 5" ----

  /** Both bounds are found and they cross: the request ends with
      conflicting filters. */
  lemma ConflictQuery(q: string)
    requires q == "strings longer than 10 and shorter than 5"
    ensures Interpret(q) == Failure(ConflictingFilters)
  {
    ConflictNormal(q);
    ConflictScan(q);
  }

  lemma ConflictNormal(t: string)
    requires t == "strings longer than 10 and shorter than 5"
    ensures Normalize(t) == t
  {
    NormalizeFixed(t);
  }

  lemma ConflictLacks(t: string, c: char)
    requires t == "strings longer than 10 and shorter than 5"
    requires c in "pwvc"
    ensures forall i | 0 <= i < |t| :: t[i] != c
  {
  }

  lemma ConflictScan(t: string)
    requires t == "strings longer than 10 and shorter than 5"
    ensures ScanOf(t) == Scan(false, false, false, None, Some(10), Some(5), None, false)
  {
    ConflictLacks(t, 'p');
    ScanWithoutP(t);
    ConflictLacks(t, 'w');
    ScanWithoutW(t);
    ConflictLacks(t, 'v');
    ScanWithoutV(t);
    ConflictLacks(t, 'c');
    ScanWithoutC(t);
    ConflictLonger(t);
    ConflictShorter(t);
  }

  lemma ConflictLonger(t: string)
    requires t == "strings longer than 10 and shorter than 5"
    ensures Search(t, LongerAt) == Some(10)
  {
    KeywordMissBetween(t, 0, 8, LongerKeywords);
    ConflictLongerAt(t);
    SearchLeftmost(t, LongerAt, 8);
  }

  lemma ConflictLongerAt(t: string)
    requires t == "strings longer than 10 and shorter than 5"
    ensures LongerAt(t, 8) == Some(10)
  {
    ConflictPieces(t);
    Ten();
    LongerThanAt(t, "strings ", "10", " and shorter than 5");
  }

  lemma ConflictPieces(t: string)
    requires t == "strings longer than 10 and shorter than 5"
    ensures t == "strings " + "longer than " + "10" + " and shorter than 5"
  {
  }

  lemma ConflictShorter(t: string)
    requires t == "strings longer than 10 and shorter than 5"
    ensures Search(t, ShorterAt) == Some(5)
  {
    KeywordMissBetween(t, 0, 27, ShorterKeywords);
    ConflictShorterAt(t);
    SearchLeftmost(t, ShorterAt, 27);
  }

  lemma ConflictShorterAt(t: string)
    requires t == "strings longer than 10 and shorter than 5"
    ensures ShorterAt(t, 27) == Some(5)
  {
    ShorterThanAt(t, "strings longer than 10 and ", "5", "");
    Five();
  }

  // ---- "strings longer than 5" ----

  /** "longer than 5" is a lower bound of 6 characters. */
  lemma LongerQuery(q: string)
    requires q == "strings longer than 5"
    ensures Interpret(q) ==
      Success(Interpretation(
        StoreQuery(None, Some(LengthBounds(Some(6), None)), None, None),
        Report(None, None, Some(6), None, None)))
  {
    LongerNormal(q);
    LongerScan(q);
    LongerResult();
  }

  lemma LongerNormal(t: string)
    requires t == "strings longer than 5"
    ensures Normalize(t) == t
  {
    NormalizeFixed(t);
  }

  lemma LongerLacks(t: string, c: char)
    requires t == "strings longer than 5"
    requires c in "pwvc"
    ensures forall i | 0 <= i < |t| :: t[i] != c
  {
  }

  lemma LongerScan(t: string)
    requires t == "strings longer than 5"
    ensures ScanOf(t) == Scan(false, false, false, None, Some(5), None, None, false)
  {
    LongerLacks(t, 'p');
    ScanWithoutP(t);
    LongerLacks(t, 'w');
    ScanWithoutW(t);
    LongerLacks(t, 'v');
    ScanWithoutV(t);
    LongerLacks(t, 'c');
    ScanWithoutC(t);
    LongerFound(t);
    LongerNoShorter(t);
  }

  lemma LongerFound(t: string)
    requires t == "strings longer than 5"
    ensures Search(t, LongerAt) == Some(5)
  {
    KeywordMissBetween(t, 0, 8, LongerKeywords);
    LongerPieces(t);
    Five();
    LongerThanAt(t, "strings ", "5", "");
    SearchLeftmost(t, LongerAt, 8);
  }

  lemma LongerPieces(t: string)
    requires t == "strings longer than 5"
    ensures t == "strings " + "longer than " + "5" + ""
  {
  }

  lemma LongerNoShorter(t: string)
    requires t == "strings longer than 5"
    ensures Search(t, ShorterAt).None?
  {
    KeywordMissBetween(t, 0, |t|, ShorterKeywords);
    SearchNone(t, ShorterAt);
  }

  lemma LongerResult()
    ensures Decide(Scan(false, false, false, None, Some(5), None, None, false)) ==
      Success(Interpretation(
        StoreQuery(None, Some(LengthBounds(Some(6), None)), None, None),
        Report(None, None, Some(6), None, None)))
  {
  }

  // ---- "strings shorter than 10 and longer than 3" ----

  /** Both bounds, in either order: lengths 4 to 9. */
  lemma RangeQuery(q: string)
    requires q == "strings shorter than 10 and longer than 3"
    ensures Interpret(q) ==
      Success(Interpretation(
        StoreQuery(None, Some(LengthBounds(Some(4), Some(9))), None, None),
        Report(None, None, Some(4), Some(9), None)))
  {
    RangeNormal(q);
    RangeScan(q);
    RangeResult();
  }

  lemma RangeNormal(t: string)
    requires t == "strings shorter than 10 and longer than 3"
    ensures Normalize(t) == t
  {
    NormalizeFixed(t);
  }

  lemma RangeLacks(t: string, c: char)
    requires t == "strings shorter than 10 and longer than 3"
    requires c in "pwvc"
    ensures forall i | 0 <= i < |t| :: t[i] != c
  {
  }

  lemma RangeScan(t: string)
    requires t == "strings shorter than 10 and longer than 3"
    ensures ScanOf(t) == Scan(false, false, false, None, Some(3), Some(10), None, false)
  {
    RangeLacks(t, 'p');
    ScanWithoutP(t);
    RangeLacks(t, 'w');
    ScanWithoutW(t);
    RangeLacks(t, 'v');
    ScanWithoutV(t);
    RangeLacks(t, 'c');
    ScanWithoutC(t);
    RangeShorter(t);
    RangeLonger(t);
  }

  lemma RangeShorter(t: string)
    requires t == "strings shorter than 10 and longer than 3"
    ensures Search(t, ShorterAt) == Some(10)
  {
    KeywordMissBetween(t, 0, 8, ShorterKeywords);
    RangeShorterAt(t);
    SearchLeftmost(t, ShorterAt, 8);
  }

  lemma RangeShorterAt(t: string)
    requires t == "strings shorter than 10 and longer than 3"
    ensures ShorterAt(t, 8) == Some(10)
  {
    RangeShorterPieces(t);
    Ten();
    ShorterThanAt(t, "strings ", "10", " and longer than 3");
  }

  lemma RangeShorterPieces(t: string)
    requires t == "strings shorter than 10 and longer than 3"
    ensures t == "strings " + "shorter than " + "10" + " and longer than 3"
  {
  }

  lemma RangeLonger(t: string)
    requires t == "strings shorter than 10 and longer than 3"
    ensures Search(t, LongerAt) == Some(3)
  {
    KeywordMissBetween(t, 0, 28, LongerKeywords);
    RangeLongerAt(t);
    SearchLeftmost(t, LongerAt, 28);
  }

  lemma RangeLongerAt(t: string)
    requires t == "strings shorter than 10 and longer than 3"
    ensures LongerAt(t, 28) == Some(3)
  {
    RangeLongerPieces(t);
    Three();
    LongerThanAt(t, "strings shorter than 10 and ", "3", "");
  }

  lemma RangeLongerPieces(t: string)
    requires t == "strings shorter than 10 and longer than 3"
    ensures t == "strings shorter than 10 and " + "longer than " + "3" + ""
  {
  }

  lemma RangeResult()
    ensures Decide(Scan(false, false, false, None, Some(3), Some(10), None, false)) ==
      Success(Interpretation(
        StoreQuery(None, Some(LengthBounds(Some(4), Some(9))), None, None),
        Report(None, None, Some(4), Some(9), None)))
  {
  }

  // ---- "containing the letter z" and "containing the z" ----

  /** The character rule alone: the store searches for "z". */
  lemma LetterQuery(q: string)
    requires q == "containing the letter z"
    ensures Interpret(q) ==
      Success(Interpretation(
        StoreQuery(None, None, None, Some("z")),
        Report(None, None, None, None, Some("z"))))
  {
    LetterNormal(q);
    LetterScan(q);
    LetterResult();
  }

  lemma LetterNormal(t: string)
    requires t == "containing the letter z"
    ensures Normalize(t) == t
  {
    NormalizeFixed(t);
  }

  lemma LetterLacks(t: string, c: char)
    requires t == "containing the letter z"
    requires c in "pwv"
    ensures forall i | 0 <= i < |t| :: t[i] != c
  {
  }

  lemma LetterScan(t: string)
    requires t == "containing the letter z"
    ensures ScanOf(t) == Scan(false, false, false, None, None, None, Some('z'), false)
  {
    LetterLacks(t, 'p');
    ScanWithoutP(t);
    LetterLacks(t, 'w');
    ScanWithoutW(t);
    LetterLacks(t, 'v');
    ScanWithoutV(t);
    LetterNoLength(t);
    LetterFound(t);
  }

  lemma LetterNoLength(t: string)
    requires t == "containing the letter z"
    ensures Search(t, LongerAt).None? && Search(t, ShorterAt).None?
  {
    KeywordMissBetween(t, 0, |t|, LongerKeywords);
    KeywordMissBetween(t, 0, |t|, ShorterKeywords);
    SearchNone(t, LongerAt);
    SearchNone(t, ShorterAt);
  }

  lemma LetterFound(t: string)
    requires t == "containing the letter z"
    ensures Search(t, CharacterAt) == Some('z')
  {
    LetterExample();
    SearchLeftmost(t, CharacterAt, 0);
  }

  lemma LetterResult()
    ensures Decide(Scan(false, false, false, None, None, None, Some('z'), false)) ==
      Success(Interpretation(
        StoreQuery(None, None, None, Some("z")),
        Report(None, None, None, None, Some("z"))))
  {
  }

  /** Without "letter" the rule still matches, one word early: "containing
      the z" searches for "t". */
  lemma TheQuery(q: string)
    requires q == "containing the z"
    ensures Interpret(q) ==
      Success(Interpretation(
        StoreQuery(None, None, None, Some("t")),
        Report(None, None, None, None, Some("t"))))
  {
    TheNormal(q);
    TheScan(q);
    TheResult();
  }

  lemma TheNormal(t: string)
    requires t == "containing the z"
    ensures Normalize(t) == t
  {
    NormalizeFixed(t);
  }

  lemma TheLacks(t: string, c: char)
    requires t == "containing the z"
    requires c in "pwv"
    ensures forall i | 0 <= i < |t| :: t[i] != c
  {
  }

  lemma TheScan(t: string)
    requires t == "containing the z"
    ensures ScanOf(t) == Scan(false, false, false, None, None, None, Some('t'), false)
  {
    TheLacks(t, 'p');
    ScanWithoutP(t);
    TheLacks(t, 'w');
    ScanWithoutW(t);
    TheLacks(t, 'v');
    ScanWithoutV(t);
    TheNoLength(t);
    TheFound(t);
  }

  lemma TheNoLength(t: string)
    requires t == "containing the z"
    ensures Search(t, LongerAt).None? && Search(t, ShorterAt).None?
  {
    KeywordMissBetween(t, 0, |t|, LongerKeywords);
    KeywordMissBetween(t, 0, |t|, ShorterKeywords);
    SearchNone(t, LongerAt);
    SearchNone(t, ShorterAt);
  }

  lemma TheFound(t: string)
    requires t == "containing the z"
    ensures Search(t, CharacterAt) == Some('t')
  {
    TheExample();
    SearchLeftmost(t, CharacterAt, 0);
  }

  lemma TheResult()
    ensures Decide(Scan(false, false, false, None, None, None, Some('t'), false)) ==
      Success(Interpretation(
        StoreQuery(None, None, None, Some("t")),
        Report(None, None, None, None, Some("t"))))
  {
  }

  // ---- "xyz" ----

  /** A query no rule understands is refused as unparseable. */
  lemma XyzQuery(q: string)
    requires q == "xyz"
    ensures Interpret(q) == Failure(UnparseableQuery)
  {
    XyzNormal(q);
    XyzScan(q);
    XyzResult();
  }

  lemma XyzNormal(t: string)
    requires t == "xyz"
    ensures Normalize(t) == t
  {
    NormalizeFixed(t);
  }

  lemma XyzResult()
    ensures Decide(Scan(false, false, false, None, None, None, None, false)) == Failure(UnparseableQuery)
  {
  }

  lemma XyzScan(t: string)
    requires t == "xyz"
    ensures ScanOf(t) == Scan(false, false, false, None, None, None, None, false)
  {
    ScanWithoutP(t);
    ScanWithoutW(t);
    ScanWithoutV(t);
    ScanWithoutC(t);
    KeywordMissBetween(t, 0, |t|, LongerKeywords);
    KeywordMissBetween(t, 0, |t|, ShorterKeywords);
    SearchNone(t, LongerAt);
    SearchNone(t, ShorterAt);
  }

  // ---- the numbers the samples use ----

  lemma Ten()
    ensures DecimalValue("10") == 10
  {
    assert "10"[..1] == "1";
    assert "1"[..0] == [];
  }

  lemma Three()
    ensures DecimalValue("3") == 3
  {
    assert "3"[..0] == [];
  }

  lemma Five()
    ensures DecimalValue("5") == 5
  {
    assert "5"[..0] == [];
  }
}

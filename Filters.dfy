/** The query dictionary handed to the collection's `find`, what it matches,
    and the structured filter builder `filter_strings` (strings.py:52-95). */
module Filters {
  import opened Wrappers
  import opened PyText
  import opened Documents

  /** `{"$gte": ..., "$lte": ...}` on `properties.length`. */
  datatype LengthBounds = LengthBounds(gte: Option<int>, lte: Option<int>)

  /** The query dictionary; a key is present exactly when its field is `Some`:
      `properties.is_palindrome`, `properties.length`, `properties.word_count`
      and `value` (a `$regex` with option `i`). */
  datatype StoreQuery = StoreQuery(
    isPalindrome: Option<bool>,
    length: Option<LengthBounds>,
    wordCount: Option<int>,
    valuePattern: Option<string>)

  const EmptyQuery := StoreQuery(None, None, None, None)

  /** The pattern the vowel shortcut searches for. */
  const VowelClass := "[aeiou]"

  predicate IsVowel(c: char) {
    c in "aeiou"
  }

  /** A case-insensitive `$regex` search of `v`, for the patterns the service
      produces: the vowel class, or literal text. */
  predicate RegexSearch(pattern: string, v: string) {
    if pattern == VowelClass then exists i | 0 <= i < |v| :: IsVowel(Lower(v[i]))
    else Contains(LowerStr(v), LowerStr(pattern))
  }

  /** A single-character pattern matches the values that contain that
      character in either case. */
  lemma RegexSearchChar(c: char, v: string)
    ensures RegexSearch([c], v) <==> exists i | 0 <= i < |v| :: Lower(v[i]) == Lower(c)
  {
    var lv := LowerStr(v);
    ContainsSpec(lv, LowerStr([c]));
    if exists i | 0 <= i < |v| :: Lower(v[i]) == Lower(c) {
      var i :| 0 <= i < |v| && Lower(v[i]) == Lower(c);
      assert LiteralAt(lv, i, LowerStr([c]));
    }
    if RegexSearch([c], v) {
      var i :| 0 <= i <= |lv| && LiteralAt(lv, i, LowerStr([c]));
      assert lv[i] == Lower(c);
    }
  }

  /** `length` lies within the bounds; an empty bounds dictionary would be
      compared with the length as a sub-document and match nothing. */
  predicate InBounds(length: int, b: LengthBounds) {
    && (b.gte.Some? || b.lte.Some?)
    && (b.gte.None? || b.gte.value <= length)
    && (b.lte.None? || length <= b.lte.value)
  }

  /** The collection's `find`: every key of the query must hold (logical AND). */
  predicate Matches(d: Document, q: StoreQuery) {
    && (q.isPalindrome.None? || d.properties.isPalindrome == q.isPalindrome.value)
    && (q.length.None? || InBounds(d.properties.length, q.length.value))
    && (q.wordCount.None? || d.properties.wordCount == q.wordCount.value)
    && (q.valuePattern.None? || RegexSearch(q.valuePattern.value, d.value))
  }

  /** The integers BSON, the store's wire format, can hold: eight bytes. */
  predicate IsInt64(n: int) {
    -0x8000_0000_0000_0000 <= n < 0x8000_0000_0000_0000
  }

  /** Every integer in the query fits in eight bytes. The driver refuses to
      encode any other query: `find` raises `OverflowError` instead. */
  predicate Encodable(q: StoreQuery) {
    && (q.wordCount.None? || IsInt64(q.wordCount.value))
    && (q.length.None? || q.length.value.gte.None? || IsInt64(q.length.value.gte.value))
    && (q.length.None? || q.length.value.lte.None? || IsInt64(q.length.value.lte.value))
  }

  /** `list(string_collection.find(query))`, as a set, for a query the
      driver can encode. */
  function Find(docs: map<string, Document>, q: StoreQuery): set<Document> {
    set id | id in docs && Matches(docs[id], q) :: docs[id]
  }

  /** A document is found exactly when it is stored and matches. */
  lemma FindSpec(docs: map<string, Document>, q: StoreQuery, d: Document)
    ensures d in Find(docs, q) <==> d in docs.Values && Matches(d, q)
  {
  }

  lemma FindEmptyQuery(docs: map<string, Document>)
    ensures Find(docs, EmptyQuery) == docs.Values
  {
  }

  /** The optional query parameters of `GET /strings`. */
  datatype FilterParams = FilterParams(
    isPalindrome: Option<bool>,
    minLength: Option<int>,
    maxLength: Option<int>,
    wordCount: Option<int>,
    containsCharacter: Option<string>)

  /** Every integer parameter fits in eight bytes. */
  predicate ParamsFit(p: FilterParams) {
    && (p.minLength.None? || IsInt64(p.minLength.value))
    && (p.maxLength.None? || IsInt64(p.maxLength.value))
    && (p.wordCount.None? || IsInt64(p.wordCount.value))
  }

  /** The validation `Query(ge=1)` applies before the handler runs. */
  predicate ValidParams(p: FilterParams) {
    && (p.minLength.Some? ==> p.minLength.value >= 1)
    && (p.maxLength.Some? ==> p.maxLength.value >= 1)
  }

  /** What `filter_strings` promises: each supplied parameter is one condition
      on the document, all of them combined with AND; an empty
      `contains_character` is no condition. */
  predicate SatisfiesParams(d: Document, p: FilterParams) {
    && (p.isPalindrome.Some? ==> d.properties.isPalindrome == p.isPalindrome.value)
    && (p.minLength.Some? ==> d.properties.length >= p.minLength.value)
    && (p.maxLength.Some? ==> d.properties.length <= p.maxLength.value)
    && (p.wordCount.Some? ==> d.properties.wordCount == p.wordCount.value)
    && (p.containsCharacter.Some? && p.containsCharacter.value != [] ==>
          RegexSearch(p.containsCharacter.value, d.value))
  }

  /** A query whose keys are exactly the supplied parameters matches exactly
      the documents that meet every supplied parameter. */
  lemma MatchesParams(d: Document, q: StoreQuery, p: FilterParams)
    requires q.isPalindrome == p.isPalindrome && q.wordCount == p.wordCount
    requires q.length.Some? <==> p.minLength.Some? || p.maxLength.Some?
    requires q.length.Some? ==> q.length.value == LengthBounds(p.minLength, p.maxLength)
    requires q.valuePattern.Some? <==> p.containsCharacter.Some? && p.containsCharacter.value != []
    requires q.valuePattern.Some? ==> q.valuePattern == p.containsCharacter
    ensures Matches(d, q) <==> SatisfiesParams(d, p)
  {
  }

  /** The query `filter_strings` builds (strings.py:60-78), key by key. */
  method BuildFilterQuery(p: FilterParams) returns (q: StoreQuery)
    ensures q.isPalindrome == p.isPalindrome
    ensures q.wordCount == p.wordCount
    ensures q.length.Some? <==> p.minLength.Some? || p.maxLength.Some?
    ensures q.length.Some? ==> q.length.value == LengthBounds(p.minLength, p.maxLength)
    ensures q.valuePattern.Some? <==> p.containsCharacter.Some? && p.containsCharacter.value != []
    ensures q.valuePattern.Some? ==> q.valuePattern == p.containsCharacter
    ensures forall d :: Matches(d, q) <==> SatisfiesParams(d, p)
    ensures Encodable(q) <==> ParamsFit(p)
  {
    q := EmptyQuery;
    if p.isPalindrome.Some? {
      q := q.(isPalindrome := p.isPalindrome);
    }
    if p.minLength.Some? || p.maxLength.Some? {
      var bounds := LengthBounds(None, None);
      if p.minLength.Some? {
        bounds := bounds.(gte := p.minLength);
      }
      if p.maxLength.Some? {
        bounds := bounds.(lte := p.maxLength);
      }
      q := q.(length := Some(bounds));
    }
    if p.wordCount.Some? {
      q := q.(wordCount := p.wordCount);
    }
    if p.containsCharacter.Some? && p.containsCharacter.value != [] {
      q := q.(valuePattern := p.containsCharacter);
    }
  }

  /** There is no check that `min_length <= max_length`: crossed bounds are
      accepted and simply match nothing. */
  lemma CrossedBoundsMatchNothing(p: FilterParams, d: Document)
    requires p.minLength.Some? && p.maxLength.Some?
    requires p.minLength.value > p.maxLength.value
    ensures !SatisfiesParams(d, p)
  {
  }
}

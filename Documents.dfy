/** The stored record of app/routes/strings.py: a document keyed by the
    SHA-256 digest of its value, carrying the analyser's results. */
module Documents {
  import opened PyText
  import opened Helper

  /** The `properties` dictionary of a stored string (strings.py:32-39). */
  datatype Properties = Properties(
    length: nat,
    isPalindrome: bool,
    uniqueCharacters: nat,
    wordCount: nat,
    sha256Hash: string,
    characterFrequencyMap: map<char, nat>)

  /** A document of the collection: `{"id", "value", "properties"}`. */
  datatype Document = Document(id: string, value: string, properties: Properties)

  /** The properties the create handler computes for `value`, given its digest. */
  function Analyze(value: string, digest: string): Properties {
    Properties(
      Length(value),
      IsPalindrome(value),
      UniqueCharacters(value),
      WordCount(value),
      digest,
      Frequencies(value))
  }

  /** The store's encoding writes every key of a document as a C string and
      refuses a key holding U+0000; the frequency map has a key per
      character of the value, so `insert_one` (strings.py:47) raises for
      any other document. */
  predicate KeysEncodable(d: Document) {
    forall c | c in d.properties.characterFrequencyMap :: c != '\0'
  }

  /** The analysed document of a value can be stored exactly when the value
      holds no U+0000. */
  lemma AnalyzedKeysEncodable(id: string, value: string)
    ensures KeysEncodable(Document(id, value, Analyze(value, id))) <==> '\0' !in value
  {
    FrequencyKeys(value);
    assert '\0' in value ==> '\0' in CharSet(value);
  }

  /** The analyser's results agree with one another: the frequency map has
      one key per distinct character, its counts add up to the length, the
      distinct characters are at most the length, there are no words exactly
      when the value is blank, and short values are palindromes. */
  lemma AnalyzeConsistent(value: string, digest: string)
    ensures var p := Analyze(value, digest);
      && |p.characterFrequencyMap| == p.uniqueCharacters <= p.length
      && SumValues(p.characterFrequencyMap) == p.length
      && (p.wordCount == 0 <==> AllSpace(value))
      && (p.length <= 1 ==> p.isPalindrome)
  {
    FrequencyKeys(value);
    FrequencySum(value);
    UniqueCharactersBounds(value);
    WordCountZero(value);
    if |value| <= 1 {
      PalindromeShort(value);
    }
  }
}

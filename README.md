# String analyser service — a verified model

This project models the core of a small web service that stores strings and
their computed properties, and answers queries over them.

- **The string analyser** (`app/utils/helper.py`) computes five properties of
  a string: its length, whether it is a palindrome ignoring case, its number
  of distinct characters, its number of whitespace-separated words, and a
  map from each character to its number of occurrences. `Helper` models it.
  The frequency map is a method with a loop, as in the source. The other
  four are functions.
- **The record table** (`strings`, `get_string` and `delete_string` in
  `app/routes/strings.py`) keeps a collection of documents keyed by the
  SHA-256 digest of their value. It has create (400/409/201), get (404) and
  delete (404/204). `Routes.StringTable` models it as a class whose `docs`
  map its handlers update. The digest is an abstract function value given
  to the table. The class invariant `Valid()` says every document sits under
  the digest of its own value and carries the analyser's results.
- **The structured filter** (`filter_strings`) builds a store query from
  optional parameters. `Filters.BuildFilterQuery` builds it step by step.
  `Filters.Matches` is what the store's `find` does with such a query.
- **The natural-language interpreter** (`filter_by_natural_language`)
  lowercases and trims the query text, then runs a fixed list of lexical
  rules.
  - Each regular expression is a hand-written matcher anchored at one
    position, with the same alternatives in the same order (greedy, with
    backtracking into optional groups).
  - `re.search` is the scan for the leftmost matching position.
  - `ScanOf` collects what the rules find. `BuildFilters` builds the store
    query and the report from it, one key at a time, as the handler does.
  - `Interpret` is the whole interpreter as a pure function from the query
    text to an error or an interpretation. `ParseQuery` is the handler's
    steps, proved equal to it.
  - `QueryExamples` runs the interpreter on whole queries, such as "find
    palindromic strings", "strings longer than 10 and shorter than 5" and
    "xyz", and on the single matchers.
- **Failures as answers.** `HTTPException` is modelled with its keyword
  names: a keyword it does not know raises `TypeError`, which the server
  answers with 500. The store's encoding holds only 64-bit integers. A
  wider number in a query raises `OverflowError` at `find`, which is also
  a 500. The encoding also refuses a key holding U+0000. The frequency
  map has a key per character, so creating a value that holds U+0000
  raises at `insert_one`: the answer is 500 and nothing is stored.

Python's text built-ins live in `PyText`:
- `str.isspace` covers the full whitespace set, which `str.split`, `str.strip`
  and the regex `\s` share.
- `str.lower`, `\d` and `\w` are modelled on ASCII.
- `in` is substring search, and `int()` reads decimal digits.

Quirks the model pins down:
- The `elif "not palindrome"` branch can never run, because any text
  containing "not palindrome" contains "palindrome".
- "containing the z" captures `t`.
- Under the vowel shortcut, the report says "a (any vowel)" while the store
  query keeps a character found earlier.
- The leftmost `(\d+)\s+word` match always takes the whole digit run.

The conflicting-filters exit (app/routes/strings.py:162-165) passes
`HTTP_422_UNPROCESSABLE_ENTITY` as `status=`. `HTTPException` has no such
parameter, so the request ends in 500 (see Findings).
`Routes.StringTable.FilterByNaturalLanguage` takes the keyword as a
parameter. `Routes.ConflictRequestAsWritten` passes `status` and gets 500.
`Routes.ConflictRequestCorrected` passes `status_code` and gets the
intended 422.

## Model

| member | source | states |
|---|---|---|
| Helper.Length | app/utils/helper.py:3-7 | the length is the number of characters counted with multiplicity, and is 0 exactly for the empty string |
| Helper.Reverse | app/utils/helper.py:19 | `s[::-1]` has the same length and holds the characters of `s` in mirrored positions |
| Helper.ReverseInvolution | app/utils/helper.py:19 | reversing twice gives the string back |
| Helper.PalindromeMirror | app/utils/helper.py:10-19 | a string is a palindrome exactly when every character equals the mirrored one after lowering |
| Helper.PalindromeCaseInsensitive | app/utils/helper.py:18-19 | strings that lower to the same text are both palindromes or both not |
| Helper.PalindromeOfLowered | app/utils/helper.py:18-19 | lowering a string first does not change the answer |
| Helper.PalindromeShort | app/utils/helper.py:10-19 | the empty string and every one-character string are palindromes |
| Helper.PalindromeExamples | app/utils/helper.py:10-19 | "Racecar", "" and "level" are palindromes, "hello" is not |
| Helper.IsPalindrome | app/utils/helper.py:10-19 | `is_palindrome`: the lowered string equals its reverse; its properties are stated by PalindromeMirror, PalindromeCaseInsensitive, PalindromeOfLowered and PalindromeShort |
| Helper.CharSetSnoc | app/utils/helper.py:25 | appending a character adds exactly that character to the set of characters |
| Helper.UniqueCharactersBounds | app/utils/helper.py:21-25 | the number of distinct characters is at most the length, and is 0 only for the empty string |
| Helper.UniqueCharactersExamples | app/utils/helper.py:21-25 | distinct characters are counted case-sensitively: "Aa" has 2, "aab" has 2 |
| Helper.UniqueCharacters | app/utils/helper.py:21-25 | `unique_characters`: the size of the set of characters; its properties are stated by UniqueCharactersBounds and FrequencyKeys |
| Helper.Split | app/utils/helper.py:43 | `split()` yields only non-empty words free of whitespace |
| Helper.WordCountZero | app/utils/helper.py:27-44 | the word count is 0 exactly when the string is empty or all whitespace |
| Helper.SplitPadLeft | app/utils/helper.py:43 | leading whitespace does not change the words |
| Helper.SplitPadRight | app/utils/helper.py:43 | trailing whitespace does not change the words |
| Helper.SplitWiden | app/utils/helper.py:43 | widening a whitespace run between words does not change the words |
| Helper.WordCountExamples | app/utils/helper.py:27-44 | "" has no word and "level" has one |
| Helper.SplitFirstWord | app/utils/helper.py:43 | a word followed by whitespace or the end is the first word of `split()` |
| Helper.SplitThreeWords | app/utils/helper.py:43 | three words separated and surrounded by whitespace runs split into exactly those three words |
| Helper.WordCountSpacedExample | app/utils/helper.py:27-44 | "  a  b   c " splits into "a", "b", "c" and counts 3 words |
| Helper.WordCount | app/utils/helper.py:27-44 | `word_count`: the number of words `split()` yields; its properties are stated by WordCountZero, SplitPadLeft, SplitPadRight, SplitWiden and SplitThreeWords |
| Helper.FrequenciesSnoc | app/utils/helper.py:58-59 | one more character increments its own count (from 0 if absent) and leaves every other count alone |
| Helper.Frequencies | app/utils/helper.py:54-60 | the map `character_frequency_map` returns, as occurrence counts; CharacterFrequencyMap is proved to build it, FrequencyKeys and FrequencySum state its properties |
| Helper.CharacterFrequencyMap | app/utils/helper.py:54-60 | the loop builds exactly the map from each character of the string to its number of occurrences |
| Helper.FrequencyKeys | app/utils/helper.py:54-60 | the map's keys are the characters of the string, its size is the number of distinct characters, and every count is at least 1 |
| Helper.FrequencyExample | app/utils/helper.py:56-59 | "aab" gives a:2, b:1, with no lowering |
| Helper.SumValuesBump | app/utils/helper.py:58-59 | counting one more occurrence of a character adds one to the sum of the counts |
| Helper.FrequencySum | app/utils/helper.py:56-60 | the counts add up to the length |
| PyText.Lower | app/utils/helper.py:18 | `lower()` maps an upper-case ASCII letter 32 code points down, fixes every other character, and never yields an upper-case letter |
| PyText.IsSpace | app/utils/helper.py:43 | Python's whitespace set, shared by `split()`, `strip()` and `\s`; LowerPreservesSpace and the Strip and Split lemmas rely on it |
| PyText.LowerStr | app/utils/helper.py:18 | lowering a string keeps its length and lowers each character in place |
| PyText.LowerPreservesSpace | app/routes/strings.py:104 | lowering neither makes nor unmakes whitespace |
| PyText.LowerStrIdempotent | app/routes/strings.py:104 | lowering twice is lowering once |
| PyText.LowerStrConcat | app/routes/strings.py:104 | lowering distributes over concatenation |
| PyText.LowerStrAllSpace | app/routes/strings.py:104 | lowering leaves whitespace unchanged |
| PyText.StripLeft | app/routes/strings.py:104 | `lstrip()` drops exactly the leading whitespace: a suffix that is empty or starts with a non-space |
| PyText.StripRight | app/routes/strings.py:104 | `rstrip()` drops exactly the trailing whitespace: a prefix that is empty or ends with a non-space |
| PyText.Strip | app/routes/strings.py:104 | `strip()` is no longer than its input, neither starts nor ends with whitespace, and is empty exactly for all-whitespace input |
| PyText.StripChar | app/routes/strings.py:104 | every character of the stripped text comes from the input |
| PyText.StripLeftPadded | app/routes/strings.py:104 | `lstrip()` ignores whitespace added in front |
| PyText.StripRightPadded | app/routes/strings.py:104 | `rstrip()` ignores whitespace added behind |
| PyText.StripLeftAppendSpace | app/routes/strings.py:104 | `lstrip()` of a text followed by whitespace keeps that whitespace unless the text is all whitespace |
| PyText.StripPadded | app/routes/strings.py:104 | `strip()` ignores whitespace added on either side |
| PyText.ContainsFrom | app/routes/strings.py:109 | the substring test from a position holds exactly when the word occurs at some later position |
| PyText.ContainsSpec | app/routes/strings.py:109 | `w in t` holds exactly when `w` occurs at some position of `t` |
| PyText.Contains | app/routes/strings.py:109 | the `in` operator on strings; ContainsSpec states it is "occurs at some position" |
| PyText.LiteralAtJoin | app/routes/strings.py:109 | a word occurs right after any text it is appended to |
| PyText.ContainsSlice | app/routes/strings.py:109-112 | text containing a word contains every slice of it |
| PyText.AbsentCharNotContained | app/routes/strings.py:109 | a word holding a character the text lacks is not `in` the text |
| PyText.DiffersNearMiss | app/routes/strings.py:109 | a word that differs from the text in one of its first three characters does not occur there |
| PyText.DigitValue | app/routes/strings.py:123 | a decimal digit's value is below 10 |
| PyText.DigitChar | app/routes/strings.py:123 | the reference rendering for `int()`: the digit written for a value below 10 is a digit that `int()` reads back as that value |
| PyText.DecimalValue | app/routes/strings.py:123 | `int()` of a digit string; DecimalRoundTrip and DecimalLeadingZero state its properties |
| PyText.Decimal | app/routes/strings.py:123 | the reference rendering for `int()`: a non-empty run of digits without a leading zero |
| PyText.DecimalRoundTrip | app/routes/strings.py:123 | `int()` reads back the decimal rendering of every natural number |
| PyText.DecimalLeadingZero | app/routes/strings.py:123 | a leading zero does not change the value `int()` reads |
| PyText.RunEnd | app/routes/strings.py:121 | a greedy run stops inside the text, at its end or before a character outside the run |
| PyText.RunEndSpan | app/routes/strings.py:121 | every character a greedy run passes over belongs to the run |
| PyText.RunEndWhole | app/routes/strings.py:121 | a greedy run over text whose remaining characters all belong to it reaches the end |
| PyText.RunEndAppend | app/routes/strings.py:121 | a run that ends before appended text is not changed by it |
| Documents.AnalyzeConsistent | app/routes/strings.py:32-39 | the stored properties agree: map size equals distinct characters (at most the length), counts sum to the length, no words exactly for blank values, short values are palindromes |
| Documents.Analyze | app/routes/strings.py:32-39 | the `properties` dictionary the create handler computes; AnalyzeConsistent states how its entries agree |
| Documents.KeysEncodable | app/routes/strings.py:47 | a document whose keys `insert_one` can encode: none holds U+0000 |
| Documents.AnalyzedKeysEncodable | app/routes/strings.py:38-47 | the analysed document of a value can be stored exactly when the value holds no U+0000 |
| Filters.RegexSearchChar | app/routes/strings.py:78 | a one-character `$regex` with option `i` matches exactly the values holding that character in either case |
| Filters.RegexSearch | app/routes/strings.py:78 | the `$regex` test with option `i`: the vowel class or literal text up to case; RegexSearchChar states its one-character meaning |
| Filters.Matches | app/routes/strings.py:81 | what `find` does with one document: every key of the query holds; MatchesParams states its meaning |
| Filters.InBounds | app/routes/strings.py:65-72 | the `$gte`/`$lte` sub-dictionary on the length |
| Filters.FindSpec | app/routes/strings.py:81 | `find` returns exactly the stored documents that match every key of the query |
| Filters.FindEmptyQuery | app/routes/strings.py:81 | the empty query returns every stored document |
| Filters.Find | app/routes/strings.py:81 | `find(query)`: the stored documents that match; FindSpec and FindEmptyQuery state its meaning |
| Filters.Encodable | app/routes/strings.py:81 | a store query whose numbers fit in 64 bits, the only kind `find` can send |
| Filters.MatchesParams | app/routes/strings.py:60-81 | a query whose keys are exactly the supplied parameters matches exactly the documents meeting every one of them |
| Filters.ValidParams | app/routes/strings.py:55-56 | the `ge=1` bounds on `min_length` and `max_length` |
| Filters.ParamsFit | app/routes/strings.py:54-58 | the parameters whose numbers fit in 64 bits |
| Filters.SatisfiesParams | app/routes/strings.py:52-95 | the reference meaning of the parameters: every supplied one holds of the document |
| Filters.BuildFilterQuery | app/routes/strings.py:60-78 | each supplied parameter adds exactly its own key, the length sub-dictionary exists only when a bound is supplied, an empty `contains_character` adds nothing, the query matches exactly the documents meeting every supplied parameter, and the store can encode it exactly when every supplied number fits in 64 bits |
| Filters.CrossedBoundsMatchNothing | app/routes/strings.py:65-72 | with no check that the minimum is at most the maximum, crossed bounds match no document |
| NaturalLanguage.SearchFrom | app/routes/strings.py:121 | the scan returns the first position at or after its start where the pattern matches, and no earlier position matches |
| NaturalLanguage.SearchLeftmost | app/routes/strings.py:121 | a match with no earlier match is what `re.search` returns |
| NaturalLanguage.SearchNone | app/routes/strings.py:121 | `re.search` finds nothing exactly when no position matches |
| NaturalLanguage.Search | app/routes/strings.py:121 | `re.search` returning the capture of the leftmost match; SearchFrom, SearchLeftmost and SearchNone state its meaning |
| NaturalLanguage.DigitsAt | app/routes/strings.py:121-123 | `(\d+)` at a position, read with `int()`; DigitsAtRun states it takes the whole run |
| NaturalLanguage.WordCountAt | app/routes/strings.py:121 | `(\d+)\s+word` anchored at a position; WordCountAtExtends and WordCountWholeRun state its properties |
| NaturalLanguage.NumberAfter | app/routes/strings.py:128-131 | `\s+(?:than\s+)?(\d+)` after a keyword, with the optional group tried first; NumberAfterThan states it |
| NaturalLanguage.KeywordNumberAt | app/routes/strings.py:128-131 | the alternatives of a length pattern tried in order, each followed by the number; KeywordMiss and KeywordMissBetween state when it fails |
| NaturalLanguage.LongerAt | app/routes/strings.py:128 | the "longer/greater/above/more than" pattern at a position; LongerThanAt states it |
| NaturalLanguage.ShorterAt | app/routes/strings.py:131 | the "shorter/less than/under" pattern at a position; ShorterThanAt states it |
| NaturalLanguage.CharacterAt | app/routes/strings.py:147 | `contain`, then `s` or `ing` or nothing, then an optional " the letter", a space and one word character, at a position; CharacterAtFromText and the examples state it |
| NaturalLanguage.LetterTail | app/routes/strings.py:147 | the optional " the letter" tried before the single space |
| NaturalLanguage.LetterAt | app/routes/strings.py:147 | a space followed by one word character |
| NaturalLanguage.Normalize | app/routes/strings.py:104 | `query.lower().strip()`; NormalizePadded, NormalizedIsLower and NormalizeFixed state its properties |
| NaturalLanguage.ScanOf | app/routes/strings.py:108-157 | what each rule finds in the normalized text; ScanWithoutP, ScanWithoutW, ScanWithoutV and ScanWithoutC state when rules do not fire |
| NaturalLanguage.PalindromeFilter | app/routes/strings.py:109-114 | the palindrome filter the scan sets; PalindromeFilterNeverFalse states it is never `False` |
| NaturalLanguage.WordCountFilter | app/routes/strings.py:117-124 | 1 for "single word" or "one word", else the `(\d+)\s+word` number |
| NaturalLanguage.MinLength | app/routes/strings.py:136-139 | the longer-than number plus one |
| NaturalLanguage.MaxLength | app/routes/strings.py:140-143 | the shorter-than number minus one |
| NaturalLanguage.QueryOf | app/routes/strings.py:105-157 | the `mongo_query` the rules build; BuildFilters is proved to build it key by key |
| NaturalLanguage.ReportOf | app/routes/strings.py:106-157 | the `parsed_filters` the rules build; BuildFilters is proved to build it key by key |
| NaturalLanguage.Conflicting | app/routes/strings.py:160-161 | both bounds reported with the minimum above the maximum |
| NaturalLanguage.Decide | app/routes/strings.py:160-171 | the conflict check, then the "nothing understood" check, then the interpretation; DecideUnparseableIff and DecisionAgrees state its properties |
| NaturalLanguage.Interpret | app/routes/strings.py:104-171 | the whole interpreter from query text to an error or an interpretation; ParseQuery is proved equal to it, and ConflictIff, UnparseableIff, InterpretationAgrees, InterpretPadded, InterpretLowered and the QueryExamples lemmas state its properties |
| NaturalLanguage.BuildFilters | app/routes/strings.py:105-157 | the key-by-key building of `mongo_query` and `parsed_filters`, including the nested length dictionary and `setdefault`, yields the store query and the report of the scan |
| NaturalLanguage.ParseQuery | app/routes/strings.py:104-171 | the handler's steps give exactly the interpreter's outcome |
| NaturalLanguage.NormalizePadded | app/routes/strings.py:104 | surrounding whitespace does not change the normalized text |
| NaturalLanguage.InterpretPadded | app/routes/strings.py:104 | surrounding whitespace never changes the parse |
| NaturalLanguage.InterpretLowered | app/routes/strings.py:104 | case never changes the parse |
| NaturalLanguage.NormalizedIsLower | app/routes/strings.py:104 | the normalized text holds no upper-case letter |
| NaturalLanguage.NotPalindromeImpliesPalindrome | app/routes/strings.py:109-114 | text containing "not palindrome" triggers the positive palindrome test |
| NaturalLanguage.PalindromeFilterNeverFalse | app/routes/strings.py:109-114 | the palindrome filter is never `False`: the `elif` branch is unreachable |
| NaturalLanguage.WordCountAtExtends | app/routes/strings.py:121 | a `(\d+)\s+word` match starting inside a digit run also matches one position earlier |
| NaturalLanguage.WordCountWholeRun | app/routes/strings.py:121 | the leftmost `(\d+)\s+word` match starts where a digit run starts, so it captures the whole run |
| NaturalLanguage.CharacterAtFromText | app/routes/strings.py:147 | the character rule captures a word character of the text |
| NaturalLanguage.CharacterIsLowerWordChar | app/routes/strings.py:147-152 | the captured character is a word character and never upper case |
| NaturalLanguage.ConflictIff | app/routes/strings.py:160-166 | the request fails with conflicting filters exactly when both bounds were found and the shorter-than number is at most the longer-than number plus one |
| NaturalLanguage.UnparseableIff | app/routes/strings.py:167-171 | the query is unparseable exactly when no rule fires |
| NaturalLanguage.DecideUnparseableIff | app/routes/strings.py:160-171 | for any scan where "not palindrome" implies "palindrome", the decision is "unparseable" exactly when no rule fired |
| NaturalLanguage.InterpretationAgrees | app/routes/strings.py:105-158 | a successful parse has a non-empty report, never `is_palindrome = False`, a minimum of at least 1 and a maximum of at least -1 with the minimum not above the maximum, query keys equal to the reported values (`$gte`/`$lte` included), and a query pattern that differs from the reported character only under the vowel shortcut |
| NaturalLanguage.DecisionAgrees | app/routes/strings.py:105-171 | the same agreement between store query and report for any scan that passes the two checks |
| NaturalLanguage.InterpretedQueryMeaning | app/routes/strings.py:173 | the interpreted store query selects exactly the documents the structured filter would select for the reported values |
| NaturalLanguage.VowelShortcutKeepsCharacter | app/routes/strings.py:155-157 | when both the character and the vowel rule fire, the report says "a (any vowel)" while the query keeps the character |
| NaturalLanguage.ScanWithoutP | app/routes/strings.py:109-114 | text without a `p` sets no palindrome filter |
| NaturalLanguage.ScanWithoutW | app/routes/strings.py:117-124 | text without a `w` sets no word-count filter: no "single word", no "one word", no `(\d+)\s+word` match |
| NaturalLanguage.ScanWithoutV | app/routes/strings.py:155 | text without a `v` does not trigger the vowel shortcut |
| NaturalLanguage.ScanWithoutC | app/routes/strings.py:147 | text without a `c` sets no character filter |
| NaturalLanguage.KeywordMiss | app/routes/strings.py:128-131 | where none of the alternatives starts, the length pattern does not match |
| NaturalLanguage.KeywordMissBetween | app/routes/strings.py:128-131 | the length pattern matches nowhere in a range where every alternative differs from the text |
| NaturalLanguage.CharacterMissBetween | app/routes/strings.py:147 | the character pattern matches nowhere in a range where "contain" differs from the text |
| NaturalLanguage.DigitsAtRun | app/routes/strings.py:128-131 | `(\d+)` captures a whole run of digits, read as `int()` reads it |
| NaturalLanguage.NumberAfterThan | app/routes/strings.py:128-131 | after a keyword, `\s+(?:than\s+)?(\d+)` takes " than " and captures the following number |
| NaturalLanguage.LongerThanAt | app/routes/strings.py:128 | "longer than N" matches where it starts and captures N |
| NaturalLanguage.ShorterThanAt | app/routes/strings.py:131 | "shorter than N" matches where it starts and captures N |
| NaturalLanguage.NormalizeFixed | app/routes/strings.py:104 | text with no upper-case letter and no surrounding whitespace is its own `lower().strip()` |
| QueryExamples.LongerExample | app/routes/strings.py:128 | "longer than 5" captures 5 through the optional "than" |
| QueryExamples.ShorterExample | app/routes/strings.py:131 | "less than 10" captures 10 after the two-word keyword |
| QueryExamples.WordCountExample | app/routes/strings.py:121-123 | "12 words" captures 12 |
| QueryExamples.LetterExample | app/routes/strings.py:147 | "containing the letter z" captures `z` |
| QueryExamples.ContainingPrefix | app/routes/strings.py:147 | text opening with "containing" offers "contain" at 0, then no "s" but "ing" |
| QueryExamples.LetterTailExample | app/routes/strings.py:147 | the optional " the letter" is taken first when a letter follows it |
| QueryExamples.TheExample | app/routes/strings.py:147 | "containing the z" captures `t` |
| QueryExamples.PalindromicQuery | app/routes/strings.py:104-171 | "find palindromic strings" gives `is_palindrome = True` in both the store query and the report, and nothing else |
| QueryExamples.ConflictQuery | app/routes/strings.py:128-166 | "strings longer than 10 and shorter than 5" reaches the conflict check and fails with conflicting filters |
| QueryExamples.LongerQuery | app/routes/strings.py:128-143 | "strings longer than 5" gives only `$gte` 6 and `min_length` 6 |
| QueryExamples.RangeQuery | app/routes/strings.py:128-143 | "strings shorter than 10 and longer than 3" gives `$gte` 4 and `$lte` 9, whichever bound comes first |
| QueryExamples.LetterQuery | app/routes/strings.py:147-152 | "containing the letter z" gives the pattern and the reported character `z`, and nothing else |
| QueryExamples.TheQuery | app/routes/strings.py:147-152 | "containing the z" gives the pattern and the reported character `t` |
| QueryExamples.XyzQuery | app/routes/strings.py:167-171 | "xyz" fires no rule and is refused as unparseable |
| Routes.InterpretFailureStatus | app/routes/strings.py:160-171 | with `status_code=` a conflict answers 422; with the `status=` of the source it answers 500; an unparseable query answers 400 either way |
| Routes.HttpException | app/routes/strings.py:162-171 | `HTTPException(**keywords)`: the given status and detail, or 500 when a keyword is unknown or `status_code` is missing; InterpretFailureStatus states what each call gives |
| Routes.InterpretFailure | app/routes/strings.py:160-171 | the exception each interpretation failure raises, with the conflict check's keyword as a parameter |
| Routes.StoredDocs | app/routes/strings.py:41-47 | the collection's invariant: each document under the digest of its value, with the analyser's results and no U+0000 |
| Routes.InsertStored | app/routes/strings.py:47 | inserting the analysed document of an encodable value keeps the invariant |
| Routes.StringTable.constructor | app/routes/strings.py:4 | a new table is empty and keeps the invariant |
| Routes.StringTable.Create | app/routes/strings.py:11-49 | an empty value gives 400 and an existing id gives 409; a value holding U+0000 gives 500; all three leave the store unchanged; otherwise exactly one document is inserted, with the digest as id, the input as value and the analyser's results as properties; the invariant is kept |
| Routes.StringTable.Get | app/routes/strings.py:193-207 | the document under the value's digest, or 404; with an injective digest it is the document of that very value, and a value holding U+0000 is never found |
| Routes.StringTable.Delete | app/routes/strings.py:209-223 | a stored id is removed and nothing else changes; an absent id gives 404 and the store is unchanged |
| Routes.StringTable.FilterStrings | app/routes/strings.py:52-95 | out-of-range bounds give 422; a number wider than 64 bits gives 500; otherwise the answer holds exactly the stored documents meeting every parameter, `count` is the size of `data`, and no match gives 404 |
| Routes.StringTable.FilterByNaturalLanguage | app/routes/strings.py:97-190 | interpreter failures end the request whatever the store holds, as the exception the failure raises; a number wider than 64 bits gives 500; otherwise the answer holds exactly the matching documents with the report and the original text, and no match gives 404 |
| Routes.ConflictRequestAsWritten | app/routes/strings.py:160-166 | "strings longer than 10 and shorter than 5" with `status=` ends in 500 whatever the store holds |
| Routes.ConflictRequestCorrected | app/routes/strings.py:160-166 | the same request with `status_code=` ends in 422 with the conflict message |
| Routes.Session | app/routes/strings.py:11-223 | the handlers called in sequence (create, create again, get, delete, get again) answer 201, 409, 200, 204 and 404, and the get returns the very document the create built; for a value holding U+0000 they answer 500, 500, 404, 404 and 404 |

## Left out

- The SHA-256 digest (`sha256_hash`) is an abstract function given to the table. Injectivity is assumed only where a contract says so.
- Unicode: `lower()`, `\d` and `\w` are modelled on ASCII. Whitespace is Python's full set.
- General `$regex` semantics: a pattern is read either as the vowel class `[aeiou]` or as literal text matched without case. `filter_strings` passes user text as a raw regular expression, and its metacharacters are not modelled.
- Result order: `find` results are a set, and `count` is its size. Every stored document has its own id, so no two results are equal.
- Request validation by the web framework: the `isinstance` check (app/routes/strings.py:19-23) cannot fail once the body is parsed as a string. A missing body field is rejected before the handler runs. Only the `ge=1` bounds of `GET /strings` are modelled, as a 422 answer.
- Routes.StringTable.FilterStrings: the exact text of the framework's validation message is not modelled.
- The `created_at` timestamp of the response model (a clock), the `print` of the incoming query, the `{"_id": 0}` projection, and the store connection in app/config/config.py.
- Routes.StringTable.Create: the 16 MiB limit on a document is not modelled. `insert_one` raises `DocumentTooLarge` for a larger one, and the request ends in 500. Rules the server applies to keys beginning with `$` or holding `.` depend on its version and are not modelled. The U+0000 key exit is modelled.
- Routes.Session: the same 16 MiB limit is not modelled, so for a value whose document is that large the model's answers are 201, 409, 200, 204, 404 where the service answers 500, 500, 404, 404, 404.
- Routes.Session: calls the handlers directly. Over HTTP, `GET` and `DELETE /strings/{string_value}` cannot name a value holding `/`. The path `/strings/filter-by-natural-language` reaches the interpreter, whose route (app/routes/strings.py:97) is registered before app/routes/strings.py:193. Routing is not modelled.
- Concurrency: two simultaneous creates of the same value could both pass the existence check. Handlers run one at a time here.
- The `properties` of a stored document are recomputed by `Analyze` in the invariant. The model does not follow documents written to the store by other programs.
- NaturalLanguage.ParseQuery: Python's limit on the digits `int()` converts is not modelled. The limit is 4300 by default since Python 3.11 and can be configured. A longer digit run makes lines 123, 137 or 141 raise `ValueError`, and the request ends in 500. The model reads any number of digits.
- Routes.StringTable.FilterByNaturalLanguage: the same digit limit is not modelled, so a query with a digit run over the limit gets the model's answer rather than 500. The 64-bit limit of the store's encoding is modelled.
- Routes.StringTable.FilterByNaturalLanguage: the keyword the conflict check passes to `HTTPException` is a parameter. `status` is the source as written (500). `status_code` is the intended code (422).
- Routes.StringTable.FilterStrings: the framework parses the query parameters before the handler runs, and its own limits on integer text are not modelled. Numbers wider than 64 bits are modelled, as a 500 at `find`.

## Findings

| source | as written | input that shows it | evidently intended | confidence | as-written member | corrected member |
|---|---|---|---|---|---|---|
| app/routes/strings.py:162-166 | `HTTPException(status=..., detail=...)`: `status` is not a parameter of `HTTPException`, so building the exception raises `TypeError` and the request ends with 500 | "strings longer than 10 and shorter than 5" | `status_code=422`, "Query parsed but resulted in conflicting filters" | high, not executed | Routes.ConflictRequestAsWritten | Routes.ConflictRequestCorrected |

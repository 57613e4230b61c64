/** The request handlers of app/routes/strings.py over the string collection:
    create, look up and delete one analysed string, and the two filtered
    listings. The collection is a map from each document's `id` to the
    document; the digest function is a parameter of the table. */
module Routes {
  import opened Wrappers
  import opened Helper
  import opened Documents
  import opened Filters
  import opened NaturalLanguage
  import opened QueryExamples

  /** An `HTTPException`: the status code and the detail message. */
  datatype HttpError = HttpError(status: int, detail: string)

  /** The body of a `GET /strings` answer. */
  datatype FilterResponse = FilterResponse(data: set<Document>, count: nat, filtersApplied: FilterParams)

  /** The body of a `GET /strings/filter-by-natural-language` answer. */
  datatype NaturalResponse = NaturalResponse(data: set<Document>, count: nat, original: string, parsedFilters: Report)

  /** What the server answers when a handler raises anything other than
      `HTTPException`. */
  const ServerError := HttpError(500, "Internal Server Error")

  /** The parameters of FastAPI's `HTTPException`; `status_code` has no
      default. */
  const HttpExceptionParameters: seq<string> := ["status_code", "detail", "headers"]

  /** `HTTPException(**kwargs)` with the keyword names `keywords`, giving the
      status `status` and the message `detail`. A keyword the constructor
      does not know, or a missing `status_code`, makes the call itself raise
      `TypeError`, and the request ends in a server error. */
  function HttpException(keywords: seq<string>, status: int, detail: string): HttpError {
    if (forall k | k in keywords :: k in HttpExceptionParameters) && "status_code" in keywords
    then HttpError(status, detail)
    else ServerError
  }

  /** The keyword the conflict check of strings.py:162-166 names its status
      with, and the one the constructor expects. */
  const ConflictKeywordAsWritten := "status"
  const ConflictKeywordIntended := "status_code"

  const ConflictDetail := "Query parsed but resulted in conflicting filters"
  const UnparseableDetail := "Unable to parse natural language query"

  /** The exception a failed interpretation ends the request with, when the
      conflict check names its status with `conflictKeyword`. */
  function InterpretFailure(e: InterpretError, conflictKeyword: string): HttpError {
    match e
    case ConflictingFilters => HttpException([conflictKeyword, "detail"], 422, ConflictDetail)
    case UnparseableQuery => HttpException(["status_code", "detail"], 400, UnparseableDetail)
  }

  /** With `status_code=`, a conflict is the client error 422; with the
      `status=` of the source it becomes a server error, and only the
      unparseable query keeps its client error. */
  lemma InterpretFailureStatus(e: InterpretError)
    ensures InterpretFailure(e, ConflictKeywordIntended) ==
      if e == ConflictingFilters then HttpError(422, ConflictDetail) else HttpError(400, UnparseableDetail)
    ensures InterpretFailure(e, ConflictKeywordAsWritten) ==
      if e == ConflictingFilters then ServerError else HttpError(400, UnparseableDetail)
  {
    assert ConflictKeywordAsWritten !in HttpExceptionParameters;
  }

  /** The status code of an answer: the route's own code on success. */
  function StatusOf<T>(r: Result<T, HttpError>, ok: int): int {
    if r.Success? then ok else r.error.status
  }

  /** The digest never maps two values to one id. */
  ghost predicate Injective(hash: string -> string) {
    forall a: string, b: string :: hash(a) == hash(b) ==> a == b
  }

  /** Every document sits under its own id, which is the digest of its value,
      carries the analyser's results for that value, and is one the store
      could encode. */
  ghost predicate StoredDocs(hash: string -> string, docs: map<string, Document>) {
    forall h | h in docs ::
      && docs[h].id == h
      && hash(docs[h].value) == h
      && docs[h].properties == Analyze(docs[h].value, h)
      && '\0' !in docs[h].value
  }

  /** Storing the analysed document of an encodable value keeps the
      collection well formed. */
  lemma InsertStored(hash: string -> string, docs: map<string, Document>, value: string)
    requires StoredDocs(hash, docs) && '\0' !in value
    ensures StoredDocs(hash, docs[hash(value) := Document(hash(value), value, Analyze(value, hash(value)))])
  {
  }

  /** The string collection. */
  class StringTable {
    /** `sha256_hash`, left abstract. */
    const hash: string -> string
    /** The documents, keyed by their `id`. */
    var docs: map<string, Document>

    ghost predicate Valid()
      reads this
    {
      StoredDocs(hash, docs)
    }

    constructor(hash: string -> string)
      ensures Valid() && this.hash == hash && docs == map[]
    {
      this.hash := hash;
      docs := map[];
    }

    /** `POST /strings` (strings.py:11-49). A value holding U+0000 passes
        both checks, but its document cannot be encoded, so `insert_one`
        raises and nothing is stored. */
    method Create(value: string) returns (r: Result<Document, HttpError>)
      requires Valid()
      modifies this
      ensures Valid()
      ensures value == [] ==> r == Failure(HttpError(400, "Invalid request body or missing value field"))
      ensures value != [] && hash(value) in old(docs) ==>
        r == Failure(HttpError(409, "String already exists in the system"))
      ensures value != [] && hash(value) !in old(docs) && '\0' in value ==> r == Failure(ServerError)
      ensures r.Failure? ==> docs == old(docs)
      ensures value != [] && hash(value) !in old(docs) && '\0' !in value ==>
        && r == Success(Document(hash(value), value, Analyze(value, hash(value))))
        && docs == old(docs)[hash(value) := r.value]
    {
      if value == [] {
        return Failure(HttpError(400, "Invalid request body or missing value field"));
      }
      var computedHash := hash(value);
      if computedHash in docs {
        return Failure(HttpError(409, "String already exists in the system"));
      }
      var frequencies := CharacterFrequencyMap(value);
      var properties := Properties(
        Length(value),
        IsPalindrome(value),
        UniqueCharacters(value),
        WordCount(value),
        computedHash,
        frequencies);
      var document := Document(computedHash, value, properties);
      assert document == Document(computedHash, value, Analyze(value, computedHash));
      AnalyzedKeysEncodable(computedHash, value);
      if !KeysEncodable(document) {
        return Failure(ServerError);
      }
      InsertStored(hash, docs, value);
      docs := docs[computedHash := document];
      r := Success(document);
    }

    /** `GET /strings/{string_value}` (strings.py:193-207): the document
        stored under the value's digest; with an injective digest it is the
        document of that very value. */
    method Get(value: string) returns (r: Result<Document, HttpError>)
      requires Valid()
      ensures hash(value) in docs ==> r == Success(docs[hash(value)])
      ensures hash(value) !in docs ==> r == Failure(HttpError(404, "string does not exist in the system"))
      ensures r.Success? && Injective(hash) ==>
        r.value.value == value && r.value.properties == Analyze(value, hash(value))
      ensures '\0' in value && Injective(hash) ==> r.Failure?
    {
      var computeHash := hash(value);
      if computeHash !in docs {
        return Failure(HttpError(404, "string does not exist in the system"));
      }
      r := Success(docs[computeHash]);
    }

    /** `DELETE /strings/{string_value}` (strings.py:209-223). */
    method Delete(value: string) returns (r: Result<(), HttpError>)
      requires Valid()
      modifies this
      ensures Valid()
      ensures hash(value) in old(docs) ==> r == Success(()) && docs == old(docs) - {hash(value)}
      ensures hash(value) !in old(docs) ==>
        r == Failure(HttpError(404, "String does not exist in the system")) && docs == old(docs)
    {
      var computeHash := hash(value);
      if computeHash !in docs {
        return Failure(HttpError(404, "String does not exist in the system"));
      }
      docs := docs - {computeHash};
      r := Success(());
    }

    /** `GET /strings` (strings.py:52-95): parameters outside `ge=1` are
        refused with 422 before the handler runs; a number too wide for the
        store's encoding ends in 500; otherwise the answer holds exactly the
        stored documents that satisfy every supplied parameter, or is 404
        when there are none. */
    method FilterStrings(p: FilterParams) returns (r: Result<FilterResponse, HttpError>)
      requires Valid()
      ensures !ValidParams(p) ==> r.Failure? && r.error.status == 422
      ensures ValidParams(p) && !ParamsFit(p) ==> r == Failure(ServerError)
      ensures ValidParams(p) && ParamsFit(p) ==>
        (r.Success? <==> exists d | d in docs.Values :: SatisfiesParams(d, p))
      ensures r.Failure? && ValidParams(p) && ParamsFit(p) ==>
        r.error == HttpError(404, "Invalid query parameter values or types")
      ensures r.Success? ==>
        && (forall d :: d in r.value.data <==> d in docs.Values && SatisfiesParams(d, p))
        && r.value.count == |r.value.data|
        && r.value.filtersApplied == p
    {
      if !ValidParams(p) {
        return Failure(HttpError(422, "Input should be greater than or equal to 1"));
      }
      var query := BuildFilterQuery(p);
      if !Encodable(query) {
        return Failure(ServerError);
      }
      var results := Find(docs, query);
      forall d
        ensures d in results <==> d in docs.Values && SatisfiesParams(d, p)
      {
        FindSpec(docs, query, d);
      }
      if results == {} {
        return Failure(HttpError(404, "Invalid query parameter values or types"));
      }
      r := Success(FilterResponse(results, |results|, p));
    }

    /** `GET /strings/filter-by-natural-language` (strings.py:97-190),
        with the conflict check naming its status `conflictKeyword`: the
        interpreter's failure as an exception, a server error when a number
        is too wide for the store's encoding, 404 when nothing matches, or
        the matching documents with the report of what was understood. */
    method FilterByNaturalLanguage(query: string, conflictKeyword: string)
      returns (r: Result<NaturalResponse, HttpError>)
      requires Valid()
      ensures Interpret(query).Failure? ==>
        r == Failure(InterpretFailure(Interpret(query).error, conflictKeyword))
      ensures Interpret(query).Success? && !Encodable(Interpret(query).value.query) ==>
        r == Failure(ServerError)
      ensures Interpret(query).Success? && Encodable(Interpret(query).value.query) ==>
        var i := Interpret(query).value;
        && (r.Success? <==> exists d | d in docs.Values :: Matches(d, i.query))
        && (r.Failure? ==> r.error == HttpError(404, "No strings matched query"))
        && (r.Success? ==>
              && (forall d :: d in r.value.data <==> d in docs.Values && Matches(d, i.query))
              && r.value.count == |r.value.data|
              && r.value.original == query
              && r.value.parsedFilters == i.report)
    {
      var interpretation := ParseQuery(query);
      if interpretation.Failure? {
        return Failure(InterpretFailure(interpretation.error, conflictKeyword));
      }
      var i := interpretation.value;
      if !Encodable(i.query) {
        return Failure(ServerError);
      }
      var results := Find(docs, i.query);
      forall d
        ensures d in results <==> d in docs.Values && Matches(d, i.query)
      {
        FindSpec(docs, i.query, d);
      }
      if results == {} {
        return Failure(HttpError(404, "No strings matched query"));
      }
      r := Success(NaturalResponse(results, |results|, query, i.report));
    }
  }

  /** "strings longer than 10 and shorter than 5" as the handler is written:
      whatever the table holds, the answer is a server error. */
  method ConflictRequestAsWritten(table: StringTable) returns (r: Result<NaturalResponse, HttpError>)
    requires table.Valid()
    ensures r == Failure(ServerError)
  {
    var q := "strings longer than 10 and shorter than 5";
    ConflictQuery(q);
    r := table.FilterByNaturalLanguage(q, ConflictKeywordAsWritten);
    InterpretFailureStatus(ConflictingFilters);
  }

  /** The same request with `status_code=`: the intended 422. */
  method ConflictRequestCorrected(table: StringTable) returns (r: Result<NaturalResponse, HttpError>)
    requires table.Valid()
    ensures r == Failure(HttpError(422, ConflictDetail))
  {
    var q := "strings longer than 10 and shorter than 5";
    ConflictQuery(q);
    r := table.FilterByNaturalLanguage(q, ConflictKeywordIntended);
    InterpretFailureStatus(ConflictingFilters);
  }

  /** The handlers called in sequence on a fresh table: store a value,
      store it again, read it back, delete it, read it again. The answers
      are 201, 409, 200 with the very document the create built, 204 and
      404; a value the store cannot encode is never stored, and the answers
      are 500, 500, 404, 404 and 404. */
  method Session(hash: string -> string, value: string) returns (statuses: seq<int>, fetched: Option<Document>)
    requires value != []
    ensures '\0' !in value ==> statuses == [201, 409, 200, 204, 404]
    ensures '\0' !in value ==> fetched == Some(Document(hash(value), value, Analyze(value, hash(value))))
    ensures '\0' in value ==> statuses == [500, 500, 404, 404, 404] && fetched == None
  {
    var table := new StringTable(hash);
    var created := table.Create(value);
    var again := table.Create(value);
    var found := table.Get(value);
    fetched := if found.Success? then Some(found.value) else None;
    var deleted := table.Delete(value);
    var gone := table.Get(value);
    statuses := [
      StatusOf(created, 201), StatusOf(again, 201), StatusOf(found, 200),
      StatusOf(deleted, 204), StatusOf(gone, 200)];
  }
}

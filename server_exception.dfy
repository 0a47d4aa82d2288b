/**
 * ServerException: the error raised when the server answers with an error
 * status. It is a value: every field is set once by the constructor.
 */
module ServerErrors {
  import opened Wrappers
  import opened Decimal
  import opened Totals
  import opened Headers

  /** The error object parsed from the response body, by the text its `toString()` gives. */
  datatype ServerPayload = ServerPayload(text: string)

  /** The request description the exception refers to, as an opaque value. */
  datatype HttpRequestInfo = HttpRequestInfo(description: string)

  /** What `getHeaderFields()` gives: a map of header lists, null, or a thrown runtime exception. */
  datatype HeaderFields = Fields(fields: map<string, seq<string>>) | NullFields | LookupThrows

  datatype HttpResponse = HttpResponse(headerFields: HeaderFields)

  /** The request the exception is built from: the request and the response it received. */
  datatype ImmutableHttpRequest = ImmutableHttpRequest(httpRequest: HttpRequestInfo, httpResponse: Option<HttpResponse>)

  datatype ServerException = ServerException(
    serverError: Option<ServerPayload>,
    httpStatusCode: Int32,
    response: Option<HttpResponse>,
    request: HttpRequestInfo)

  /**
   * The constructor. `statusCode` is what `getHttpStatusCode` reads from the
   * response; that function is not part of this model.
   */
  function NewServerException(request: ImmutableHttpRequest, serverError: Option<ServerPayload>, statusCode: Int32): (e: ServerException)
    ensures e.serverError == serverError && e.httpStatusCode == statusCode
    ensures e.response == request.httpResponse && e.request == request.httpRequest
  {
    ServerException(serverError, statusCode, request.httpResponse, request.httpRequest)
  }

  /** `isTemporaryFailure`: a 5xx (or higher) status. */
  predicate IsTemporaryFailure(e: ServerException) {
    e.httpStatusCode >= 500
  }

  /** Whatever the request and payload, the exception is temporary exactly for a status of 500 or more. */
  lemma TemporaryFailureThreshold(request: ImmutableHttpRequest, serverError: Option<ServerPayload>, statusCode: Int32)
    ensures IsTemporaryFailure(NewServerException(request, serverError, statusCode)) <==> statusCode >= 500
  {
  }

  lemma TemporaryFailureExamples(request: ImmutableHttpRequest, serverError: Option<ServerPayload>)
    ensures !IsTemporaryFailure(NewServerException(request, serverError, 401))
    ensures IsTemporaryFailure(NewServerException(request, serverError, 503))
  {
  }

  const MessagePrefix := "serverError="

  /** `getMessage`: `"serverError="` followed by `String.valueOf(serverError)`. */
  function Message(e: ServerException): (m: string)
    ensures |m| >= |MessagePrefix| && m[..|MessagePrefix|] == MessagePrefix
    ensures e.serverError.None? ==> m[|MessagePrefix|..] == "null"
    ensures e.serverError.Some? ==> m[|MessagePrefix|..] == e.serverError.value.text
  {
    MessagePrefix + if e.serverError.Some? then e.serverError.value.text else "null"
  }

  /** How many times `x` occurs as a (key, value) pair of the header map. */
  function Occurrences(m: map<string, seq<string>>, x: Header): nat {
    if x.name in m then multiset(m[x.name])[x.value] else 0
  }

  /** The summed lengths of the lists under the keys in `keys`. */
  ghost function ListedTotal(m: map<string, seq<string>>, keys: set<string>): nat {
    Total(map k | k in keys && k in m :: |m[k]|)
  }

  lemma ListedTotalStep(m: map<string, seq<string>>, keys: set<string>, k: string)
    requires k in keys && k in m
    ensures ListedTotal(m, keys) == |m[k]| + ListedTotal(m, keys - {k})
  {
    var lengths := map j | j in keys && j in m :: |m[j]|;
    TotalRemove(lengths, k);
    assert lengths - {k} == map j | j in keys - {k} && j in m :: |m[j]|;
  }

  /** One header per value of `values`, in list order. */
  method HeaderBlock(key: string, values: seq<string>) returns (s: seq<Header>)
    ensures |s| == |values|
    ensures forall i :: 0 <= i < |s| ==> s[i] == Header(key, values[i])
    ensures forall x :: multiset(s)[x] == if x.name == key then multiset(values)[x.value] else 0
  {
    s := [];
    var i := 0;
    while i < |values|
      invariant 0 <= i <= |values|
      invariant |s| == i
      invariant forall j :: 0 <= j < i ==> s[j] == Header(key, values[j])
      invariant forall x :: multiset(s)[x] == if x.name == key then multiset(values[..i])[x.value] else 0
    {
      assert values[..i + 1] == values[..i] + [values[i]];
      s := s + [Header(key, values[i])];
      i := i + 1;
    }
    assert values[..i] == values;
  }

  /** The header map flattened: one header per (key, value) occurrence, keys in hash order. */
  method FlattenHeaderFields(m: map<string, seq<string>>) returns (s: seq<Header>)
    ensures |s| == ListedTotal(m, m.Keys)
    ensures forall x :: multiset(s)[x] == Occurrences(m, x)
  {
    s := [];
    var keys := m.Keys;
    while keys != {}
      invariant keys <= m.Keys
      invariant |s| + ListedTotal(m, keys) == ListedTotal(m, m.Keys)
      invariant forall x :: multiset(s)[x] == if x.name in keys then 0 else Occurrences(m, x)
      decreases |keys|
    {
      var k :| k in keys;
      var block := HeaderBlock(k, m[k]);
      s := s + block;
      ListedTotalStep(m, keys, k);
      keys := keys - {k};
    }
  }

  /**
   * `getReceivedHeaders`: the response's header map flattened, or the empty
   * list when there is no response, no header map, or looking it up throws.
   */
  method GetReceivedHeaders(e: ServerException) returns (s: seq<Header>)
    ensures e.response.None? || !e.response.value.headerFields.Fields? ==> s == []
    ensures e.response.Some? && e.response.value.headerFields.Fields? ==>
              var m := e.response.value.headerFields.fields;
              |s| == ListedTotal(m, m.Keys) && forall x :: multiset(s)[x] == Occurrences(m, x)
  {
    if e.response.Some? {
      match e.response.value.headerFields
      case Fields(m) =>
        s := FlattenHeaderFields(m);
        return;
      case NullFields =>
      case LookupThrows =>
    }
    s := [];
  }
}

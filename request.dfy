/**
 * BaseHttpRequest and its Builder. The builder keeps the rule that `GET` and
 * `HEAD` never carry a body, whichever order the method and the body are set
 * in; the built request keeps that rule, owns the header store, settles the
 * body headers before the signer runs, and reports upload progress around the
 * body it writes.
 */
module Request {
  import opened Wrappers
  import opened Decimal
  import opened Headers
  import opened UrlEncodedBody

  const DefaultHttpMethod := "GET"
  const DefaultPostMethod := "POST"

  /** The parsed request URI, taken as an opaque value. */
  type Uri = string

  /** The parser bound to the request, taken as an opaque value. */
  datatype InputStreamParser = InputStreamParser(name: string)

  /** A request signer, abstracted as the change it makes to the request headers. */
  datatype RequestSigner = RequestSigner(sign: HeaderState -> HeaderState)

  /** An upload progress listener, taken as an opaque value. */
  datatype ProgressListener = ProgressListener(name: string)

  /** The `IllegalArgumentException`s the builder throws. */
  datatype ConfigError =
    | NullMethod                  // "invalid null HTTP method"
    | MethodWithBody(httpVerb: string)   // "invalid HTTP method with body:" + method name
    | BodyForMethod(httpVerb: string)    // "invalid body for HTTP method:" + method name
    | NullSigner

  /** What reaches the upload listener and the output stream, in order. */
  datatype UploadEvent = Progress(listener: ProgressListener, percent: int) | Wrote(data: string)

  /** `isMethodWithBody`: every method but `GET` and `HEAD` may carry a body. */
  predicate IsMethodWithBody(httpVerb: string) {
    httpVerb != "GET" && httpVerb != "HEAD"
  }

  lemma BodylessMethods(httpVerb: string)
    ensures !IsMethodWithBody(httpVerb) <==> httpVerb in {"GET", "HEAD"}
  {
  }

  /** The headers after the body part of `settleHttpHeaders`; `bodyLength` is the encoded body's length, `None` without a body. */
  function BodyHeaders(h: HeaderState, httpVerb: string, bodyLength: Option<nat>): (r: HeaderState)
    ensures bodyLength.Some? ==> ContentType in r.setHeaders && r.setHeaders[ContentType] == FormContentType
    ensures bodyLength.Some? ==> ContentLength in r.setHeaders && ParseDecimal(r.setHeaders[ContentLength]) == Some(bodyLength.value)
    ensures bodyLength.None? && !IsMethodWithBody(httpVerb) ==> ContentLength in r.setHeaders && r.setHeaders[ContentLength] == "0"
    ensures bodyLength.Some? ==> ContentType !in r.addHeaders && ContentLength !in r.addHeaders
    ensures bodyLength.None? && !IsMethodWithBody(httpVerb) ==>
              ContentLength !in r.addHeaders
              && Agree(h.setHeaders, r.setHeaders, ContentType) && Agree(h.addHeaders, r.addHeaders, ContentType)
    ensures bodyLength.None? && IsMethodWithBody(httpVerb) ==> r == h
    ensures forall k :: k != ContentType && k != ContentLength ==> Agree(h.setHeaders, r.setHeaders, k) && Agree(h.addHeaders, r.addHeaders, k)
  {
    if bodyLength.Some? then
      DecimalRoundTrip(bodyLength.value);
      WithSet(WithSet(h, ContentType, Some(FormContentType)), ContentLength, Some(NatToDecimal(bodyLength.value)))
    else if !IsMethodWithBody(httpVerb) then
      WithSet(h, ContentLength, Some("0"))
    else
      h
  }

  /** The signer's change, when there is a signer. */
  function Signed(signer: Option<RequestSigner>, h: HeaderState): HeaderState {
    if signer.Some? then signer.value.sign(h) else h
  }

  /** The progress notifications `outputBody` sends at `percent`. */
  function Notify(listener: Option<ProgressListener>, percent: int): seq<UploadEvent> {
    if listener.Some? then [Progress(listener.value, percent)] else []
  }

  class Builder {
    var bodyParams: HttpBodyUrlEncoded?
    var uri: Option<Uri>
    var streamParser: Option<InputStreamParser>
    var httpMethod: string
    var signer: Option<RequestSigner>

    /** The method is never null or empty, and a body goes with a body-capable method. */
    ghost predicate Valid()
      reads this
    {
      httpMethod != "" && (bodyParams != null ==> IsMethodWithBody(httpMethod))
    }

    /** A new builder: method `GET`, no body, no URI, no parser, no signer. */
    constructor ()
      ensures Valid()
      ensures httpMethod == DefaultHttpMethod && bodyParams == null
      ensures uri == None && streamParser == None && signer == None
    {
      bodyParams := null;
      uri := None;
      streamParser := None;
      signer := None;
      httpMethod := "";
      new;
      var r := SetHttpMethod(DefaultHttpMethod);
    }

    /** `setHttpMethod`: refuses an empty method, and a bodyless one once a body is set; a refusal changes nothing. */
    method SetHttpMethod(httpVerb: string) returns (r: Outcome<ConfigError>)
      modifies this`httpMethod
      ensures r == (if httpVerb == "" then Fail(NullMethod)
                    else if bodyParams != null && !IsMethodWithBody(httpVerb) then Fail(MethodWithBody(httpVerb))
                    else Pass)
      ensures httpMethod == if r.Pass? then httpVerb else old(httpMethod)
      ensures old(Valid()) ==> Valid()
    {
      if httpVerb == "" {
        return Fail(NullMethod);
      }
      if bodyParams != null && !IsMethodWithBody(httpVerb) {
        return Fail(MethodWithBody(httpVerb));
      }
      httpMethod := httpVerb;
      return Pass;
    }

    /**
     * `setBody(method, body)`. The method is set first, so a body refused for
     * a bodyless method still leaves that method in place.
     */
    method SetBodyWithMethod(httpVerb: string, body: HttpBodyUrlEncoded?) returns (r: Outcome<ConfigError>)
      modifies this`httpMethod, this`bodyParams
      ensures old(Valid()) ==> Valid()
      ensures httpVerb == "" ==> r == Fail(NullMethod) && unchanged(this)
      ensures httpVerb != "" && old(bodyParams) != null && !IsMethodWithBody(httpVerb) ==>
                r == Fail(MethodWithBody(httpVerb)) && unchanged(this)
      ensures httpVerb != "" && old(bodyParams) == null && !IsMethodWithBody(httpVerb) && body != null ==>
                r == Fail(BodyForMethod(httpVerb)) && httpMethod == httpVerb && bodyParams == null
      ensures httpVerb != "" && (IsMethodWithBody(httpVerb) || (body == null && old(bodyParams) == null)) ==>
                r == Pass && httpMethod == httpVerb && bodyParams == body
    {
      r := SetHttpMethod(httpVerb);
      if r.Fail? {
        return;
      }
      if body != null && !IsMethodWithBody(httpMethod) {
        return Fail(BodyForMethod(httpMethod));
      }
      bodyParams := body;
    }

    /** `setBody(body)`: the body with the `POST` method. */
    method SetBody(body: HttpBodyUrlEncoded?) returns (r: Outcome<ConfigError>)
      modifies this`httpMethod, this`bodyParams
      ensures old(Valid()) ==> Valid()
      ensures r == Pass && httpMethod == DefaultPostMethod && bodyParams == body
    {
      r := SetBodyWithMethod(DefaultPostMethod, body);
    }

    method SetUri(u: Option<Uri>)
      modifies this`uri
      ensures uri == u
    {
      uri := u;
    }

    method SetStreamParser(p: Option<InputStreamParser>)
      modifies this`streamParser
      ensures streamParser == p
    {
      streamParser := p;
    }

    /** `setSigner`: a null signer is refused and changes nothing. */
    method SetSigner(s: Option<RequestSigner>) returns (r: Outcome<ConfigError>)
      modifies this`signer
      ensures r == if s.None? then Fail(NullSigner) else Pass
      ensures signer == if s.None? then old(signer) else s
    {
      if s.None? {
        return Fail(NullSigner);
      }
      signer := s;
      return Pass;
    }

    method Build() returns (request: BaseHttpRequest)
      requires Valid()
      requires bodyParams != null ==> bodyParams.Valid()
      ensures fresh(request) && fresh(request.headers)
      ensures request.Valid()
      ensures request.uri == uri && request.httpMethod == httpMethod && request.streamParser == streamParser
      ensures request.bodyParams == bodyParams && request.signer == signer
      ensures request.headers.State() == HeaderState(map[], map[]) && request.progressListener == None
    {
      request := new BaseHttpRequest(this);
    }
  }

  class BaseHttpRequest {
    const uri: Option<Uri>
    const httpMethod: string
    const streamParser: Option<InputStreamParser>
    const bodyParams: HttpBodyUrlEncoded?
    const signer: Option<RequestSigner>
    const headers: HeaderStore
    var progressListener: Option<ProgressListener>

    ghost predicate Valid()
      reads this, bodyParams
    {
      httpMethod != "" && (bodyParams != null ==> IsMethodWithBody(httpMethod) && bodyParams.Valid())
    }

    constructor (builder: Builder)
      requires builder.Valid()
      requires builder.bodyParams != null ==> builder.bodyParams.Valid()
      ensures fresh(headers)
      ensures Valid()
      ensures uri == builder.uri && httpMethod == builder.httpMethod && streamParser == builder.streamParser
      ensures bodyParams == builder.bodyParams && signer == builder.signer
      ensures headers.State() == HeaderState(map[], map[]) && progressListener == None
    {
      uri := builder.uri;
      httpMethod := builder.httpMethod;
      streamParser := builder.streamParser;
      bodyParams := builder.bodyParams;
      signer := builder.signer;
      headers := new HeaderStore();
      progressListener := None;
    }

    method SetProgressListener(listener: Option<ProgressListener>)
      modifies this`progressListener
      ensures progressListener == listener
    {
      progressListener := listener;
    }

    /**
     * `settleHttpHeaders`: the body settles its headers (or a bodyless method
     * gets `Content-Length: 0`), then the signer, if any, signs.
     */
    method SettleHttpHeaders()
      requires Valid()
      modifies headers, bodyParams
      ensures Valid()
      ensures bodyParams != null ==> bodyParams.encoded == Some(Frozen(old(bodyParams.params), old(bodyParams.encoded)))
      ensures bodyParams != null ==> bodyParams.params == if old(bodyParams.encoded).None? then [] else old(bodyParams.params)
      ensures headers.State() == Signed(signer, BodyHeaders(old(headers.State()), httpMethod,
                                   if bodyParams != null then Some(|bodyParams.encoded.value|) else None))
    {
      if bodyParams != null {
        bodyParams.SettleHttpHeaders(headers);
      } else if !IsMethodWithBody(httpMethod) {
        headers.SetHeader(ContentLength, Some("0"));
      }
      if signer.Some? {
        headers.Assign(signer.value.sign(headers.State()));
      }
    }

    /** `outputBody(OutputStream)`: progress 0, the body if there is one, progress 100. */
    method OutputBody() returns (events: seq<UploadEvent>)
      requires Valid()
      modifies bodyParams
      ensures Valid()
      ensures bodyParams != null ==> bodyParams.encoded == Some(Frozen(old(bodyParams.params), old(bodyParams.encoded)))
      ensures bodyParams != null ==> bodyParams.params == if old(bodyParams.encoded).None? then [] else old(bodyParams.params)
      ensures events == Notify(progressListener, 0)
                        + (if bodyParams != null then [Wrote(bodyParams.encoded.value)] else [])
                        + Notify(progressListener, 100)
      ensures progressListener.Some? ==> |events| >= 2 && events[0].Progress? && events[0].percent == 0
                                         && events[|events| - 1].Progress? && events[|events| - 1].percent == 100
    {
      var listener := progressListener;
      events := Notify(listener, 0);
      if bodyParams != null {
        var written := bodyParams.WriteBodyTo([]);
        assert written == bodyParams.encoded.value;
        events := events + [Wrote(written)];
      }
      events := events + Notify(listener, 100);
    }
  }

  /**
   * Builder call sequences and what a caller can conclude from the contracts
   * alone: `GET`/`HEAD` are refused with a body in either order, and a refused
   * `setBody("GET", body)` on a fresh builder still leaves `GET` set.
   */
  method BuilderScenarios(body: HttpBodyUrlEncoded)
  {
    var b := new Builder();
    var r := b.SetBodyWithMethod("GET", body);
    assert r == Fail(BodyForMethod("GET")) && b.httpMethod == "GET" && b.bodyParams == null;

    r := b.SetBody(body);
    assert r == Pass && b.httpMethod == "POST" && b.bodyParams == body;
    r := b.SetHttpMethod("HEAD");
    assert r == Fail(MethodWithBody("HEAD")) && b.httpMethod == "POST";
    r := b.SetHttpMethod("PUT");
    assert r == Pass && b.httpMethod == "PUT" && b.Valid();

    var c := new Builder();
    r := c.SetHttpMethod("HEAD");
    r := c.SetBody(body);
    assert r == Pass && c.httpMethod == "POST";
    r := c.SetBodyWithMethod("HEAD", null);
    assert r == Fail(MethodWithBody("HEAD")) && c.bodyParams == body;
  }
}

/**
 * How BaseHttpRequest turns a failed response into an HttpException builder
 * (`newExceptionFromResponse`) and which stream it reads the error body from
 * (`getParseableErrorStream`). Streams, media types and the two body parsers
 * are abstract: a stream is the connection's stream or a decompressing
 * wrapper around another stream, and a parser either yields the text of what
 * it parsed or fails.
 */
module ErrorResponse {
  import opened Wrappers

  /** A media type as `MediaType.parse` gives it: its type and subtype. */
  datatype MediaType = MediaType(mainType: string, subtype: string)

  /**
   * An input stream: one of the connection's own, an `InflaterInputStream`
   * or a `GZIPInputStream` around another stream.
   */
  datatype Stream = Connection(id: nat) | Inflater(inner: Stream) | Gzip(inner: Stream)

  /** `instanceof InflaterInputStream`; `GZIPInputStream` is a subclass of it. */
  predicate IsInflaterStream(s: Stream) {
    s.Inflater? || s.Gzip?
  }

  predicate IsGzipStream(s: Stream) {
    s.Gzip?
  }

  /** The connection stream a stream reads from; closing a wrapper closes it. */
  function Root(s: Stream): Stream {
    match s
    case Connection(_) => s
    case Inflater(inner) => Root(inner)
    case Gzip(inner) => Root(inner)
  }

  /** What `getInputStream` gives: a stream, null, or an `IOException`. */
  datatype StreamFetch = Fetched(stream: Option<Stream>) | FetchThrows

  /**
   * The parts of the failed response that the error path reads. `gzipHeaderValid`
   * says whether the body starts with a gzip header, without which the
   * `GZIPInputStream` constructor throws.
   */
  datatype Response = Response(
    contentType: Option<MediaType>,
    contentEncoding: Option<string>,
    errorStream: Option<Stream>,
    inputStream: StreamFetch,
    gzipHeaderValid: bool)

  /** The stream chosen for the error body, or the `IOException` thrown while choosing it. */
  datatype StreamChoice = Chosen(stream: Option<Stream>) | Threw

  /** The raw stream `getParseableErrorStream` starts from: the error stream, else the input stream. */
  function RawErrorStream(r: Response): StreamFetch {
    if r.errorStream.Some? then Fetched(r.errorStream) else r.inputStream
  }

  /** `getParseableErrorStream`. */
  function ParseableErrorStream(r: Response): (c: StreamChoice)
    ensures c.Threw? <==> RawErrorStream(r).FetchThrows? ||
                          (RawErrorStream(r).stream.Some? && r.contentEncoding == Some("gzip")
                           && !IsGzipStream(RawErrorStream(r).stream.value) && !r.gzipHeaderValid)
    ensures c == Chosen(None) <==> r.errorStream.None? && r.inputStream == Fetched(None)
    ensures c.Chosen? && c.stream.Some? ==> RawErrorStream(r).Fetched? && RawErrorStream(r).stream.Some?
                                            && Root(c.stream.value) == Root(RawErrorStream(r).stream.value)
    ensures c.Chosen? && c.stream.Some? && r.contentEncoding == Some("deflate") ==> IsInflaterStream(c.stream.value)
    ensures c.Chosen? && c.stream.Some? && r.contentEncoding == Some("gzip") ==> IsGzipStream(c.stream.value)
    ensures c.Chosen? && c.stream.Some? && r.contentEncoding != Some("deflate") && r.contentEncoding != Some("gzip") ==>
              c.stream == RawErrorStream(r).stream
  {
    var raw := RawErrorStream(r);
    if raw.FetchThrows? then Threw
    else if raw.stream.None? then Chosen(None)
    else
      var s0 := raw.stream.value;
      var s1 := if r.contentEncoding == Some("deflate") && !IsInflaterStream(s0) then Inflater(s0) else s0;
      if r.contentEncoding == Some("gzip") && !IsGzipStream(s1) then
        if r.gzipHeaderValid then Chosen(Some(Gzip(s1))) else Threw
      else Chosen(Some(s1))
  }

  /** A stream that is already of the kind the encoding asks for is not wrapped again. */
  lemma NoDoubleWrap(r: Response)
    requires RawErrorStream(r).Fetched? && RawErrorStream(r).stream.Some?
    requires || (r.contentEncoding == Some("deflate") && IsInflaterStream(RawErrorStream(r).stream.value))
             || (r.contentEncoding == Some("gzip") && IsGzipStream(RawErrorStream(r).stream.value))
    ensures ParseableErrorStream(r) == Chosen(RawErrorStream(r).stream)
  {
  }

  // ------------------------------------------------------------ classification

  /** The branch `newExceptionFromResponse` takes on the response's content type. */
  datatype BodyBranch = JsonBody | TextBody | NoBody

  /** `Util.MediaTypeJSON.equalsType(type)`: `application/json`, whatever its parameters. */
  predicate IsJson(t: Option<MediaType>) {
    t.Some? && t.value.mainType == "application" && t.value.subtype == "json"
  }

  function Branch(t: Option<MediaType>): (b: BodyBranch)
    ensures b == JsonBody <==> IsJson(t)
    ensures b == TextBody <==> !IsJson(t) && (t.None? || t.value.mainType == "text")
    ensures b == NoBody <==> t.Some? && t.value.mainType != "text" && !IsJson(t)
  {
    if IsJson(t) then JsonBody
    else if t.None? || t.value.mainType == "text" then TextBody
    else NoBody
  }

  /** What a body parser made of the stream: the text of the value, or a parse or I/O failure. */
  datatype ParseOutcome = Parsed(text: string) | ParseFails

  /**
   * The error code of an HttpException: the code a fresh builder carries before
   * one is set, or `ERROR_HTTP`. The other codes are not part of this model.
   */
  datatype ErrorCode = Unspecified | ErrorHttp

  /** The cause handed to `newExceptionFromResponse`, as an opaque value. */
  datatype Cause = Cause(description: string)

  /** The request an exception is about, as an opaque value. */
  datatype RequestInfo = RequestInfo(description: string)

  /** The fields of `HttpException.Builder` that the error path sets, and the request it was made for. */
  datatype ErrorBuilder = ErrorBuilder(request: RequestInfo, code: ErrorCode, response: Option<Response>,
                                       cause: Option<Cause>, message: Option<string>)

  /**
   * `newException()`: a builder that holds the request it was made for, with
   * no code, response, cause or message set yet.
   */
  function NewException(request: RequestInfo): (b: ErrorBuilder)
    ensures b.request == request && b.code == Unspecified
    ensures b.response == None && b.cause == None && b.message == None
  {
    ErrorBuilder(request, Unspecified, None, None, None)
  }

  /** The builder returned, and the stream closed in the `finally` block. */
  datatype ErrorReport = ErrorReport(builder: ErrorBuilder, closed: Option<Stream>)

  /**
   * `newExceptionFromResponse` for a request whose response is set. `parseJson`
   * stands for `InputStreamJSONObjectParser` followed by `toString()`, and
   * `parseText` for `InputStreamStringParser`; `handleJSONError` keeps the
   * builder as it is. Failures while building the report are swallowed.
   */
  function NewExceptionFromResponse(request: RequestInfo, r: Response, cause: Option<Cause>,
                                    parseJson: Option<Stream> -> ParseOutcome,
                                    parseText: Option<Stream> -> ParseOutcome): (rep: ErrorReport)
    ensures rep.builder.request == request && rep.builder.code == ErrorHttp && rep.builder.response == Some(r) && rep.builder.cause == cause
    ensures Branch(r.contentType) == NoBody ==> rep.builder.message == None && rep.closed == None
    ensures rep.builder.message.Some? <==>
              Branch(r.contentType) != NoBody && ParseableErrorStream(r).Chosen?
              && (if Branch(r.contentType) == JsonBody then parseJson else parseText)(ParseableErrorStream(r).stream).Parsed?
    ensures rep.builder.message.Some? ==>
              rep.builder.message.value ==
              (if Branch(r.contentType) == JsonBody then parseJson else parseText)(ParseableErrorStream(r).stream).text
    ensures rep.closed.Some? <==> Branch(r.contentType) != NoBody && ParseableErrorStream(r).Chosen? && ParseableErrorStream(r).stream.Some?
    ensures rep.closed.Some? ==> rep.closed == ParseableErrorStream(r).stream
  {
    var builder := NewException(request).(code := ErrorHttp, response := Some(r), cause := cause);
    var branch := Branch(r.contentType);
    if branch == NoBody then ErrorReport(builder, None)
    else
      var choice := ParseableErrorStream(r);
      if choice.Threw? then ErrorReport(builder, None)
      else
        var parse := if branch == JsonBody then parseJson else parseText;
        var outcome := parse(choice.stream);
        var message := if outcome.Parsed? then Some(outcome.text) else None;
        ErrorReport(builder.(message := message), choice.stream)
  }

  // --------------------------------------------------------------- the leak

  /** The connection stream under the stream the error path obtained, if it obtained one. */
  function Acquired(r: Response): Option<Stream> {
    if Branch(r.contentType) != NoBody && RawErrorStream(r).Fetched? && RawErrorStream(r).stream.Some?
    then Some(Root(RawErrorStream(r).stream.value))
    else None
  }

  /** Every connection stream the error path obtained is closed on the way out. */
  predicate ClosesWhatItOpens(r: Response, rep: ErrorReport) {
    Acquired(r).Some? ==> rep.closed.Some? && Root(rep.closed.value) == Acquired(r).value
  }

  /**
   * As written, a gzip-encoded error body without a valid gzip header makes
   * the `GZIPInputStream` constructor throw before the stream reaches the
   * variable the `finally` block closes: the connection's error stream stays open.
   */
  lemma GzipFailureLeaksStream()
    ensures var r := Response(Some(MediaType("text", "plain")), Some("gzip"), Some(Connection(0)), Fetched(None), false);
            var rep := NewExceptionFromResponse(RequestInfo("GET"), r, None, _ => ParseFails, _ => ParseFails);
            Acquired(r) == Some(Connection(0)) && rep.closed == None && !ClosesWhatItOpens(r, rep)
  {
  }

  /** As written, the stream is left open exactly when choosing it threw after obtaining it. */
  lemma LeaksOnlyWhenWrappingThrows(request: RequestInfo, r: Response, cause: Option<Cause>,
                                    parseJson: Option<Stream> -> ParseOutcome,
                                    parseText: Option<Stream> -> ParseOutcome)
    ensures ClosesWhatItOpens(r, NewExceptionFromResponse(request, r, cause, parseJson, parseText))
            <==> !(Acquired(r).Some? && ParseableErrorStream(r).Threw?)
  {
  }

  /** The error path with the raw stream closed also when wrapping it fails. */
  function NewExceptionFromResponseClosing(request: RequestInfo, r: Response, cause: Option<Cause>,
                                           parseJson: Option<Stream> -> ParseOutcome,
                                           parseText: Option<Stream> -> ParseOutcome): (rep: ErrorReport)
    ensures rep.builder == NewExceptionFromResponse(request, r, cause, parseJson, parseText).builder
    ensures ClosesWhatItOpens(r, rep)
  {
    var rep := NewExceptionFromResponse(request, r, cause, parseJson, parseText);
    if Branch(r.contentType) != NoBody && ParseableErrorStream(r).Threw? && RawErrorStream(r).Fetched? then
      rep.(closed := RawErrorStream(r).stream)
    else
      rep
  }
}

# A verified model of Android-HttpClient's request core

This project models the small pieces of the Android-HttpClient library
(`com.levelup.http`) that hold logic of their own, and proves what they promise:

- **The request builder** (`BaseHttpRequest.Builder`) sets the method, body, URI,
  parser and signer. It keeps the rule that `GET` and `HEAD` never carry a body,
  in whichever order `setHttpMethod` and `setBody` are called. It also keeps the
  source's quirk: `setBody(method, body)` sets the method before it checks the
  body. A refused `setBody("GET", body)` on a fresh builder therefore leaves the
  method at `GET`.
- **The header store** of `BaseHttpRequest` has two maps. The "set" map holds one
  value per key. The "add" map holds a set of values per key. The model covers
  `setHeader`, `addHeader`, `getHeader` (which may return any added value) and
  `getAllHeaders`. `settleHttpHeaders` lets the body settle its headers, or gives
  a bodyless method `Content-Length: 0`, and then runs the signer.
  `outputBody` reports upload progress 0 before the body and 100 after it.
- **The error path of a failed response.** `getParseableErrorStream` picks the
  stream: the error stream, falling back to the input stream, wrapped for
  `deflate` or `gzip`. `newExceptionFromResponse` picks the JSON branch, the text
  branch or no body parse from the content type, and swallows I/O and parse failures.
- **The form body** (`HttpBodyUrlEncoded`) collects parameters. On first use it
  encodes them once, caches the result and clears the list. Every `*` becomes
  `%2A`. The proofs show that the `Content-Length` header, the fixed-length
  streaming size and the bytes written agree. They also show that decoding the
  body gives back every name and value.
- **`ServerException`** is a value. The model covers its temporary-failure rule
  (status ≥ 500), its message, and how it flattens the received header map.

Files:

| file | module |
|---|---|
| `wrappers.dfy` | `Wrappers`: Java's null, as `Option`, and calls that throw, as `Outcome` |
| `decimal.dfy` | `Decimal`: `Integer.toString`, `Long.toString` and `String.valueOf(boolean)`, each with an inverse |
| `totals.dfy` | `Totals`: the sum over a finite map, independent of the order its keys are visited in |
| `headers.dfy` | `Headers`: the two header maps as a value (`HeaderState`) and as the mutable `HeaderStore` |
| `form_encoding.dfy` | `FormEncoding`: the form-urlencoded serialisation, the `*` rewriting, a decoder and the round trip |
| `url_encoded_body.dfy` | `UrlEncodedBody`: the class `HttpBodyUrlEncoded` |
| `request.dfy` | `Request`: the classes `Builder` and `BaseHttpRequest` |
| `error_response.dfy` | `ErrorResponse`: `getParseableErrorStream` and `newExceptionFromResponse` |
| `server_exception.dfy` | `ServerErrors`: `ServerException` |

In Java the header maps are fields of `BaseHttpRequest`. Here they live in their
own class, `HeaderStore`, which the request owns. This lets
`HttpBodyUrlEncoded.settleHttpHeaders` call `setHeader` without the two modules
importing each other. The form encoding follows `java.net.URLEncoder`, which is
also the byte serialiser of section 5.2 of the WHATWG URL Standard. It keeps
`a-z A-Z 0-9 . - * _`, writes a space as `+`, and writes every other UTF-8 byte
as `%XX`.

## Model

| member | source | states |
|---|---|---|
| `Request.Builder.constructor` | HttpClient/src/com/levelup/http/BaseHttpRequest.java:64-66 | a new builder has method `GET`, no body, no URI, no parser and no signer, and satisfies the builder invariant |
| `Request.Builder.SetHttpMethod` | HttpClient/src/com/levelup/http/BaseHttpRequest.java:98-105 | an empty (null) method is refused; a `GET`/`HEAD` method is refused once a body is set; on refusal the method is unchanged; the invariant is kept |
| `Request.Builder.SetBodyWithMethod` | HttpClient/src/com/levelup/http/BaseHttpRequest.java:85-91 | the four outcomes: method refused (nothing changes); body refused for a bodyless method (the method has already changed, the body has not); otherwise method and body both set; a body is never left with `GET`/`HEAD` |
| `Request.Builder.SetBody` | HttpClient/src/com/levelup/http/BaseHttpRequest.java:74-76 | setting a body always succeeds and sets method `POST` |
| `Request.Builder.SetUri` | HttpClient/src/com/levelup/http/BaseHttpRequest.java:139-142 | the URI is replaced |
| `Request.Builder.SetStreamParser` | HttpClient/src/com/levelup/http/BaseHttpRequest.java:149-152 | the parser is replaced |
| `Request.Builder.SetSigner` | HttpClient/src/com/levelup/http/BaseHttpRequest.java:159-165 | a null signer is refused and changes nothing; otherwise the signer is set |
| `Request.Builder.Build` | HttpClient/src/com/levelup/http/BaseHttpRequest.java:170-172 | the request gets the builder's URI, method, parser, body and signer, empty headers and no listener, and keeps the body/method rule |
| `Request.BaseHttpRequest.constructor` | HttpClient/src/com/levelup/http/BaseHttpRequest.java:193-199 | fields are copied from the builder; the request invariant holds |
| `Request.BodylessMethods` | HttpClient/src/com/levelup/http/BaseHttpRequest.java:175-177 | a method may not carry a body exactly when it is `GET` or `HEAD` |
| `Request.IsMethodWithBody` | HttpClient/src/com/levelup/http/BaseHttpRequest.java:175-177 | `isMethodWithBody`: every method but `GET` and `HEAD` may carry a body; its characterisation is `Request.BodylessMethods` |
| `Request.BodyHeaders` | HttpClient/src/com/levelup/http/BaseHttpRequest.java:238-242 | with a body: form content type and a `Content-Length` that reads back as the body's length; without a body, a bodyless method gets `Content-Length: 0` and any other method no change; every header it sets loses its added values; no other header changes |
| `Request.BaseHttpRequest.SettleHttpHeaders` | HttpClient/src/com/levelup/http/BaseHttpRequest.java:237-245 | the new headers are the signer applied to the body-settled headers, so signing comes after the body headers; the body's cached encoding is the one computed from its parameters |
| `Request.BaseHttpRequest.SetProgressListener` | HttpClient/src/com/levelup/http/BaseHttpRequest.java:335-337 | the listener is replaced |
| `Request.BaseHttpRequest.OutputBody` | HttpClient/src/com/levelup/http/BaseHttpRequest.java:343-351 | with a listener, the first event is progress 0 and the last is progress 100, even without a body; the body's cached encoding is written in between |
| `Headers.WithSet` | HttpClient/src/com/levelup/http/BaseHttpRequest.java:275-281 | the add-set of the key is gone; a null value removes the key from the set-map, any other value becomes its set value; other keys are untouched in both maps |
| `Headers.WithAdded` | HttpClient/src/com/levelup/http/BaseHttpRequest.java:265-272 | the value joins the key's add-set, which is created if absent; the set-map and other keys are untouched |
| `Headers.HeaderStore.constructor` | HttpClient/src/com/levelup/http/BaseHttpRequest.java:36-37 | both header maps start empty |
| `Headers.HeaderStore.SetHeader` | HttpClient/src/com/levelup/http/BaseHttpRequest.java:275-281 | the store's new state is `WithSet` of the old one |
| `Headers.HeaderStore.AddHeader` | HttpClient/src/com/levelup/http/BaseHttpRequest.java:265-272 | the store's new state is `WithAdded` of the old one |
| `Headers.HeaderStore.GetHeader` | HttpClient/src/com/levelup/http/BaseHttpRequest.java:284-290 | returns the set value if there is one, else some member of a non-empty add-set, else null |
| `Headers.SetThenGet` | HttpClient/src/com/levelup/http/BaseHttpRequest.java:275-290 | after `setHeader(k, v)`, `getHeader(k)` can only return `v`, whatever was added before |
| `Headers.RemoveThenGet` | HttpClient/src/com/levelup/http/BaseHttpRequest.java:275-305 | after `setHeader(k, null)`, `getHeader(k)` is null and neither the set part nor the added part of `getAllHeaders` lists `k`, even after earlier `addHeader(k, …)`; the default headers are not affected |
| `Headers.SetWinsOverLaterAdd` | HttpClient/src/com/levelup/http/BaseHttpRequest.java:265-290 | a set value still wins over values added after it |
| `Headers.AddThenGet` | HttpClient/src/com/levelup/http/BaseHttpRequest.java:265-290 | without a set value, `getHeader` may return the value just added, and returns only that value or an earlier added one |
| `Headers.AddTwice` | HttpClient/src/com/levelup/http/BaseHttpRequest.java:265-272 | adding a value that is already there leaves the state unchanged |
| `Headers.DifferentKeysCommute` | HttpClient/src/com/levelup/http/BaseHttpRequest.java:265-281 | `setHeader` and `addHeader` on different keys commute |
| `Headers.ListSetHeaders` | HttpClient/src/com/levelup/http/BaseHttpRequest.java:296-298 | one header per set-map key, carrying its value; as many entries as keys |
| `Headers.ListValues` | HttpClient/src/com/levelup/http/BaseHttpRequest.java:300-302 | one header per value of one add-set |
| `Headers.ListAddedHeaders` | HttpClient/src/com/levelup/http/BaseHttpRequest.java:299-303 | one header per (key, value) pair of the add-map; the length is the sum of the add-set sizes |
| `Headers.HeaderStore.GetAllHeaders` | HttpClient/src/com/levelup/http/BaseHttpRequest.java:294-305 | default headers first and unchanged, then every set header exactly once, then every added pair exactly once; the length is the sum of the three counts |
| `UrlEncodedBody.HttpBodyUrlEncoded.constructor` | HttpClient/src/com/levelup/http/HttpBodyUrlEncoded.java:25-27 | no parameters and no cached encoding |
| `UrlEncodedBody.HttpBodyUrlEncoded.Add` | HttpClient/src/com/levelup/http/HttpBodyUrlEncoded.java:62-64 | the pair is appended at the end; the cache is untouched |
| `UrlEncodedBody.HttpBodyUrlEncoded.AddBool` | HttpClient/src/com/levelup/http/HttpBodyUrlEncoded.java:67-69 | the same as `add(name, String.valueOf(b))` |
| `UrlEncodedBody.HttpBodyUrlEncoded.AddInt` | HttpClient/src/com/levelup/http/HttpBodyUrlEncoded.java:72-74 | the same as `add(name, Integer.toString(i))` |
| `UrlEncodedBody.HttpBodyUrlEncoded.AddLong` | HttpClient/src/com/levelup/http/HttpBodyUrlEncoded.java:77-79 | the same as `add(name, Long.toString(l))` |
| `UrlEncodedBody.HttpBodyUrlEncoded.GetEncodedParams` | HttpClient/src/com/levelup/http/HttpBodyUrlEncoded.java:37-43 | the first call encodes the current parameters, caches the result and clears the list; later calls return the cache, whatever was added since; the result has no `*` and decodes, as text, to the names and values of the parameters it was computed from |
| `UrlEncodedBody.HttpBodyUrlEncoded.SettleHttpHeaders` | HttpClient/src/com/levelup/http/HttpBodyUrlEncoded.java:46-49 | sets `Content-Type` to the form type with utf-8 charset, then `Content-Length` to the decimal length of the cached encoding |
| `UrlEncodedBody.HttpBodyUrlEncoded.SetConnectionProperties` | HttpClient/src/com/levelup/http/HttpBodyUrlEncoded.java:52-54 | the fixed streaming length is the length of the cached encoding |
| `UrlEncodedBody.HttpBodyUrlEncoded.WriteBodyTo` | HttpClient/src/com/levelup/http/HttpBodyUrlEncoded.java:57-59 | the output gets exactly the cached encoding |
| `UrlEncodedBody.SettleConnectAndWrite` | HttpClient/src/com/levelup/http/HttpBodyUrlEncoded.java:46-59 | `Content-Length`, the fixed streaming length and the bytes written all agree, and parameters added later are not sent |
| `FormEncoding.Utf8` | HttpClient/src/com/levelup/http/HttpBodyUrlEncoded.java:39 | one to four bytes per character; one byte, the character itself, exactly for ASCII |
| `FormEncoding.Utf8RoundTrip` | HttpClient/src/com/levelup/http/HttpBodyUrlEncoded.java:39 | UTF-8 loses nothing: a strict RFC 3629 decoder (no overlong forms, no surrogates) reads back any text from its bytes |
| `FormEncoding.Utf8DecodeEncodedChar` | HttpClient/src/com/levelup/http/HttpBodyUrlEncoded.java:39 | the decoder reads back each character `Utf8` writes and consumes exactly its bytes |
| `FormEncoding.PercentBytes` | HttpClient/src/com/levelup/http/HttpBodyUrlEncoded.java:39 | three characters per byte, none of them `*` |
| `FormEncoding.EncodeComponent` | HttpClient/src/com/levelup/http/HttpBodyUrlEncoded.java:39 | an encoded name or value holds only unreserved characters, `+` and `%` |
| `FormEncoding.ReplaceStar` | HttpClient/src/com/levelup/http/HttpBodyUrlEncoded.java:39 | no `*` remains; the text grows by two characters per `*`; nothing but `%2A` is introduced |
| `FormEncoding.Format` | HttpClient/src/com/levelup/http/HttpBodyUrlEncoded.java:39 | `URLEncodedUtils.format`: empty exactly for no parameters; exactly one `=` per parameter and one `&` between two parameters; nothing but encoded characters, `=` and `&` |
| `FormEncoding.Encode` | HttpClient/src/com/levelup/http/HttpBodyUrlEncoded.java:39 | the body has no `*` and is pure ASCII, so its characters are its bytes |
| `FormEncoding.EncodeRoundTrip` | HttpClient/src/com/levelup/http/HttpBodyUrlEncoded.java:39 | decoding the body gives back the UTF-8 bytes of every name and value, in order, with null values read as empty |
| `FormEncoding.EncodeTextRoundTrip` | HttpClient/src/com/levelup/http/HttpBodyUrlEncoded.java:39 | decoding the body as UTF-8 text gives back every name and value, in order, with null values read as empty |
| `FormEncoding.DecodeStrictComponent` | HttpClient/src/com/levelup/http/HttpBodyUrlEncoded.java:39 | a name or value, encoded and with its stars rewritten, percent-decodes to its UTF-8 bytes |
| `Decimal.NatToDecimal` | HttpClient/src/com/levelup/http/HttpBodyUrlEncoded.java:48 | `Integer.toString` of a length: digits only, no leading zero |
| `Decimal.DecimalRoundTrip` | HttpClient/src/com/levelup/http/HttpBodyUrlEncoded.java:48 | the `Content-Length` text reads back as the length |
| `Decimal.IntToString` | HttpClient/src/com/levelup/http/HttpBodyUrlEncoded.java:72-79 | `Integer.toString`/`Long.toString`: never empty, with a leading minus sign exactly for negative values; `Decimal.IntRoundTrip` reads the number back |
| `Decimal.IntRoundTrip` | HttpClient/src/com/levelup/http/HttpBodyUrlEncoded.java:72-79 | the text of an `int` or `long` parameter reads back as the number |
| `Decimal.BoolToString` | HttpClient/src/com/levelup/http/HttpBodyUrlEncoded.java:67-69 | `String.valueOf(b)` is `"true"` exactly when `b` holds, and `"false"` otherwise |
| `ErrorResponse.ParseableErrorStream` | HttpClient/src/com/levelup/http/BaseHttpRequest.java:443-457 | uses the error stream, else the input stream; gives null only when both are null; throws only when `getInputStream` throws or the gzip header is bad; `deflate` yields an inflating stream and `gzip` a gzip stream over the same connection stream; any other encoding leaves the stream as it is |
| `ErrorResponse.NoDoubleWrap` | HttpClient/src/com/levelup/http/BaseHttpRequest.java:451-454 | a stream that is already of the right kind is not wrapped again |
| `ErrorResponse.Branch` | HttpClient/src/com/levelup/http/BaseHttpRequest.java:417-427 | JSON branch exactly for `application/json`; text branch exactly for a null type or a `text/*` type; otherwise no body parse |
| `ErrorResponse.NewException` | HttpClient/src/com/levelup/http/BaseHttpRequest.java:401-404 | a new builder holds the request it was made for, and no code, response, cause or message yet |
| `ErrorResponse.NewExceptionFromResponse` | HttpClient/src/com/levelup/http/BaseHttpRequest.java:407-441 | the builder starts as `newException()` gives it and keeps the request; its code is always `ERROR_HTTP` with the response and cause recorded; the message is set exactly when the branch parses the body and the parse succeeds, and is that parse's text; with no body parse, nothing is read or closed; I/O and parse failures are swallowed and a builder is always returned; the stream closed is the one chosen |
| `ErrorResponse.GzipFailureLeaksStream` | HttpClient/src/com/levelup/http/BaseHttpRequest.java:419-438 | as written, a gzip error body with a bad header leaves the connection's error stream unclosed |
| `ErrorResponse.LeaksOnlyWhenWrappingThrows` | HttpClient/src/com/levelup/http/BaseHttpRequest.java:419-457 | as written, a stream is left open exactly when choosing it threw after it was obtained |
| `ErrorResponse.NewExceptionFromResponseClosing` | HttpClient/src/com/levelup/http/BaseHttpRequest.java:407-441 | the same builder, and every connection stream obtained is closed |
| `ServerErrors.NewServerException` | HttpClient/src/com/levelup/http/ServerException.java:22-27 | the payload, status, response and request are captured as given; the getters return them |
| `ServerErrors.IsTemporaryFailure` | HttpClient/src/com/levelup/http/ServerException.java:39-41 | `isTemporaryFailure`: a status of 500 or more; `ServerErrors.TemporaryFailureThreshold` states it for every status |
| `ServerErrors.TemporaryFailureThreshold` | HttpClient/src/com/levelup/http/ServerException.java:39-41 | for every request, payload and status, the exception is a temporary failure exactly when the status is 500 or more |
| `ServerErrors.TemporaryFailureExamples` | HttpClient/src/com/levelup/http/ServerException.java:39-41 | status 401 is not a temporary failure, status 503 is |
| `ServerErrors.Message` | HttpClient/src/com/levelup/http/ServerException.java:67-70 | `serverError=` followed by the payload's text, or by `null` without a payload |
| `ServerErrors.HeaderBlock` | HttpClient/src/com/levelup/http/ServerException.java:50-52 | one header per value of one key's list, in list order |
| `ServerErrors.FlattenHeaderFields` | HttpClient/src/com/levelup/http/ServerException.java:46-54 | one header per (key, value) occurrence; the length is the sum of the list lengths |
| `ServerErrors.GetReceivedHeaders` | HttpClient/src/com/levelup/http/ServerException.java:43-65 | the flattened header map; empty for a null response, a null map or a lookup that throws |

## Findings

| source | as written | input that shows it | evidently intended | confidence | as-written member | corrected member |
|---|---|---|---|---|---|---|
| HttpClient/src/com/levelup/http/BaseHttpRequest.java:419-457 | `new GZIPInputStream(raw)` throws inside `getParseableErrorStream` before the stream is assigned to the variable that the `finally` block closes (assuming, as in OpenJDK, that the `GZIPInputStream` constructor does not close the stream it was given when it throws) | content type `text/plain`, `Content-Encoding: gzip`, an error stream whose body has no gzip header | the connection's error stream is closed on every exit path, as the `finally` block sets out to do | medium; not executed | `ErrorResponse.GzipFailureLeaksStream` | `ErrorResponse.NewExceptionFromResponseClosing` |

## Left out

- `setUrl` (both overloads): these parse with Android's `Uri.parse` and `Uri.Builder`, which are foreign library calls. The model sets the URI directly, as an opaque value, with `setUri`.
- `setConnectionProperties(HttpURLConnection)`, `outputBody(HttpURLConnection)`, `setResponse`, `getURL` and the opening and closing of connections: these are platform I/O. The cookie manager, the logger and `HttpConfig` are left out for the same reason.
- `HttpClient.getDefaultHeaders()` is global state. `GetAllHeaders` takes the default headers as a parameter, with a null list passed as the empty one.
- The OAuth1 signer: a signer is modelled as the change it makes to the header maps (`RequestSigner.sign`), not as signing itself. A signer that throws an `HttpException` out of `settleHttpHeaders` is not modelled: the model's signer always succeeds.
- Real decompression and the JSON and string parsers: a stream is an abstract value, and a parser yields either the text of what it parsed or a failure. `handleJSONError` keeps the builder unchanged, which is the default; overrides in subclasses are not part of this model.
- `MediaType.parse` is a foreign call. The content type is given as an already-parsed (type, subtype) pair, or as null. `Util.MediaTypeJSON.equalsType` is not part of this model; it is taken to compare the type and the subtype with `application/json`.
- `ErrorResponse.NewExceptionFromResponse`: it assumes the request's response is set. With a null response the Java code throws a `NullPointerException`, and that case is not modelled.
- `getHttpStatusCode` is not part of this model. The status code is an input of `NewServerException`.
- `toString` and `getToStringExtra`: they depend on `identityHashCode` and class names.
- The `HttpBodyUrlEncoded(int capacity)` constructor: it differs from the default one only by an allocation hint. (A negative capacity makes `ArrayList` throw, which is not modelled.)
- `String.getBytes()` with the platform charset: the encoded body is proved to be pure ASCII, so its characters stand for its bytes.
- Null header keys and null values passed to `addHeader`: the Java maps and sets accept them, but the model's keys and values are non-null strings. (A null value passed to `setHeader` or to `add` is modelled.)
- A null parameter name passed to `add`: Apache's `BasicNameValuePair` refuses it with an `IllegalArgumentException`; the model's names are non-null strings, so that exception is not modelled.
- `Headers.HeaderStore.GetHeader`: `toArray()[0]` returns the first added value in hash order. The model returns some added value without fixing which one.
- `ServerErrors.GetReceivedHeaders`: it does not model the null key that `HttpURLConnection` uses for the status line, or null list entries.
- `ServerErrors.FlattenHeaderFields`: it states the multiset of headers and their number. It does not state that each key's values form one contiguous block.
- The interfaces `InputStreamParser`, `XferTransform`, `HttpResponse` and `XferTransformResponseInputStream`: they hold no logic of their own.
- Java strings are UTF-16; the model's strings are sequences of Unicode scalar values. So lone surrogates, which `URLEncoder` replaces by `?` and so writes as `%3F`, are not modelled.
- `Request.BodyHeaders`, `Request.BaseHttpRequest.SettleHttpHeaders` and `Request.BaseHttpRequest.OutputBody`: in Java the request's body is any `HttpBodyParameters`, and `settleHttpHeaders` and `outputBody` dispatch through that interface. The model's body is always an `HttpBodyUrlEncoded`. So the form content type, the `Content-Length` of the encoding and the single write of the encoding hold for the form body only; other body implementations are not part of this model.
- `Request.BaseHttpRequest.OutputBody` and `UrlEncodedBody.HttpBodyUrlEncoded.WriteBodyTo`: `output.write` can throw an `IOException`, which leaves `outputBody` after progress 0 and before progress 100. The model's write always succeeds, so "the last event is progress 100" holds only for a write that succeeds.

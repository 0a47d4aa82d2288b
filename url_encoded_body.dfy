/**
 * HttpBodyUrlEncoded: a request body that collects parameters and sends them
 * form-urlencoded. The encoding is computed once, on first use, and kept; the
 * parameter list is cleared at that moment, so the `Content-Length` header,
 * the fixed-length streaming size and the bytes written all come from the same
 * cached encoding.
 */
module UrlEncodedBody {
  import opened Wrappers
  import opened Decimal
  import opened FormEncoding
  import opened Headers

  /** `URLEncodedUtils.CONTENT_TYPE + "; charset=utf-8"`. */
  const FormContentType := "application/x-www-form-urlencoded; charset=utf-8"

  /** The encoding in force after `getEncodedParams` runs in state (`params`, `cached`). */
  function Frozen(params: seq<Param>, cached: Option<string>): string {
    if cached.Some? then cached.value else Encode(params)
  }

  class HttpBodyUrlEncoded {
    var params: seq<Param>
    var encoded: Option<string>
    /** The parameters the cached encoding was computed from. */
    ghost var encodedFrom: seq<Param>

    ghost predicate Valid()
      reads this
    {
      encoded.Some? ==> encoded.value == Encode(encodedFrom)
    }

    constructor ()
      ensures Valid()
      ensures params == [] && encoded == None
    {
      params := [];
      encoded := None;
      encodedFrom := [];
    }

    /** `add(name, value)`: appends the pair; a null value is `None`. */
    method Add(name: string, value: Option<string>)
      requires Valid()
      modifies this
      ensures Valid()
      ensures params == old(params) + [Param(name, value)]
      ensures encoded == old(encoded) && encodedFrom == old(encodedFrom)
    {
      params := params + [Param(name, value)];
    }

    /** `add(name, boolean)`. */
    method AddBool(name: string, b: bool)
      requires Valid()
      modifies this
      ensures Valid()
      ensures params == old(params) + [Param(name, Some(BoolToString(b)))]
      ensures encoded == old(encoded) && encodedFrom == old(encodedFrom)
    {
      Add(name, Some(BoolToString(b)));
    }

    /** `add(name, int)`. */
    method AddInt(name: string, i: Int32)
      requires Valid()
      modifies this
      ensures Valid()
      ensures params == old(params) + [Param(name, Some(IntToString(i)))]
      ensures encoded == old(encoded) && encodedFrom == old(encodedFrom)
    {
      Add(name, Some(IntToString(i)));
    }

    /** `add(name, long)`. */
    method AddLong(name: string, l: Int64)
      requires Valid()
      modifies this
      ensures Valid()
      ensures params == old(params) + [Param(name, Some(IntToString(l)))]
      ensures encoded == old(encoded) && encodedFrom == old(encodedFrom)
    {
      Add(name, Some(IntToString(l)));
    }

    /**
     * `getEncodedParams`: the first call encodes the current parameters,
     * caches the result and clears the list; later calls return the cache.
     */
    method GetEncodedParams() returns (bytes: string)
      requires Valid()
      modifies this
      ensures Valid()
      ensures bytes == Frozen(old(params), old(encoded))
      ensures encoded == Some(bytes)
      ensures params == if old(encoded).None? then [] else old(params)
      ensures '*' !in bytes && DecodeFormText(bytes) == Some(ExpectedText(encodedFrom))
      ensures old(encoded).Some? ==> encodedFrom == old(encodedFrom)
      ensures old(encoded).None? ==> encodedFrom == old(params)
    {
      if encoded.None? {
        encoded := Some(Encode(params));
        encodedFrom := params;
        params := [];
      }
      bytes := encoded.value;
      EncodeTextRoundTrip(encodedFrom);
    }

    /** `settleHttpHeaders`: sets the form content type and the length of the encoding. */
    method SettleHttpHeaders(headers: HeaderStore)
      requires Valid()
      modifies this, headers
      ensures Valid()
      ensures encoded == Some(Frozen(old(params), old(encoded)))
      ensures params == if old(encoded).None? then [] else old(params)
      ensures headers.State() == WithSet(WithSet(old(headers.State()), ContentType, Some(FormContentType)), ContentLength, Some(NatToDecimal(|encoded.value|)))
    {
      headers.SetHeader(ContentType, Some(FormContentType));
      var bytes := GetEncodedParams();
      headers.SetHeader(ContentLength, Some(NatToDecimal(|bytes|)));
    }

    /** `setConnectionProperties`: the size given to `setFixedLengthStreamingMode`. */
    method SetConnectionProperties() returns (fixedLength: nat)
      requires Valid()
      modifies this
      ensures Valid()
      ensures encoded == Some(Frozen(old(params), old(encoded)))
      ensures params == if old(encoded).None? then [] else old(params)
      ensures fixedLength == |encoded.value|
    {
      var bytes := GetEncodedParams();
      fixedLength := |bytes|;
    }

    /** `writeBodyTo`: the output stream, as the text written to it so far, gets the encoding. */
    method WriteBodyTo(output: seq<char>) returns (written: seq<char>)
      requires Valid()
      modifies this
      ensures Valid()
      ensures encoded == Some(Frozen(old(params), old(encoded)))
      ensures params == if old(encoded).None? then [] else old(params)
      ensures written == output + encoded.value
    {
      var bytes := GetEncodedParams();
      written := output + bytes;
    }
  }

  /**
   * The order in which a transport drives a body: settle the headers, fix the
   * streaming length, write. The header, the length and the bytes agree, and
   * parameters added after the first of these calls are not sent.
   */
  method SettleConnectAndWrite(body: HttpBodyUrlEncoded, headers: HeaderStore) returns (fixedLength: nat, written: seq<char>)
    requires body.Valid()
    modifies body, headers
    ensures body.Valid()
    ensures written == Frozen(old(body.params), old(body.encoded))
    ensures fixedLength == |written|
    ensures ContentLength in headers.setHeaders && headers.setHeaders[ContentLength] == NatToDecimal(fixedLength)
    ensures ParseDecimal(headers.setHeaders[ContentLength]) == Some(|written|)
  {
    body.SettleHttpHeaders(headers);
    fixedLength := body.SetConnectionProperties();
    written := body.WriteBodyTo([]);
    assert [] + body.encoded.value == body.encoded.value;
    DecimalRoundTrip(fixedLength);
  }
}

/**
 * The `application/x-www-form-urlencoded` serialisation that HttpBodyUrlEncoded
 * sends: every parameter becomes `name=value`, parameters are joined by `&`,
 * and each name and value is written as its UTF-8 bytes with the characters
 * `a-z A-Z 0-9 . - * _` kept, the space written `+` and every other byte
 * written `%XX` in upper-case hexadecimal (the rule of java.net.URLEncoder and
 * of section 5.2 of the WHATWG URL Standard). HttpBodyUrlEncoded then rewrites
 * every `*` as `%2A`.
 *
 * A decoder is defined beside the encoder. `EncodeRoundTrip` proves that
 * decoding the final body gives back the UTF-8 bytes of every name and value,
 * in order, so the `*` rewriting loses nothing; `Utf8RoundTrip` and
 * `EncodeTextRoundTrip` carry this from bytes back to the text itself.
 */
module FormEncoding {
  import opened Wrappers

  type Byte = b: int | 0 <= b < 256

  /** One request parameter; a null value is sent as the empty string. */
  datatype Param = Param(name: string, value: Option<string>)

  /** A decoded parameter: the bytes of its name and of its value. */
  type Pair = (seq<Byte>, seq<Byte>)

  // ---------------------------------------------------------------- UTF-8

  /** The UTF-8 encoding of one Unicode scalar value (RFC 3629, section 3). */
  function Utf8(c: char): (bs: seq<Byte>)
    ensures 1 <= |bs| <= 4
    ensures |bs| == 1 <==> c as int < 0x80
    ensures |bs| == 1 ==> bs[0] == c as int
  {
    var cp := c as int;
    if cp < 0x80 then [cp]
    else if cp < 0x800 then [0xC0 + cp / 0x40, 0x80 + cp % 0x40]
    else if cp < 0x1_0000 then [0xE0 + cp / 0x1000, 0x80 + (cp / 0x40) % 0x40, 0x80 + cp % 0x40]
    else [0xF0 + cp / 0x4_0000, 0x80 + (cp / 0x1000) % 0x40, 0x80 + (cp / 0x40) % 0x40, 0x80 + cp % 0x40]
  }

  function Utf8String(s: string): seq<Byte> {
    if s == [] then [] else Utf8(s[0]) + Utf8String(s[1..])
  }

  /** A UTF-8 continuation byte, `10xxxxxx`. */
  predicate Continuation(b: Byte) {
    0x80 <= b < 0xC0
  }

  /**
   * The character that the UTF-8 sequence at the start of `bs` encodes, and the
   * number of bytes it takes; `None` for an ill-formed sequence, including an
   * overlong form or a surrogate (RFC 3629, sections 3 and 4).
   */
  function Utf8DecodeChar(bs: seq<Byte>): (r: Option<(char, nat)>)
    ensures r.Some? ==> 1 <= r.value.1 <= |bs| && r.value.1 <= 4
    ensures r.Some? ==> (r.value.1 == 1 <==> r.value.0 as int < 0x80)
  {
    if |bs| == 0 then None
    else if bs[0] < 0x80 then Some((bs[0] as char, 1))
    else if 0xC2 <= bs[0] < 0xE0 then
      if |bs| >= 2 && Continuation(bs[1]) then
        Some((((bs[0] as int - 0xC0) * 0x40 + (bs[1] as int - 0x80)) as char, 2))
      else None
    else if 0xE0 <= bs[0] < 0xF0 then
      if |bs| >= 3 && Continuation(bs[1]) && Continuation(bs[2]) then
        var cp := ((bs[0] as int - 0xE0) * 0x40 + (bs[1] as int - 0x80)) * 0x40 + (bs[2] as int - 0x80);
        if 0x800 <= cp && !(0xD800 <= cp < 0xE000) then Some((cp as char, 3)) else None
      else None
    else if 0xF0 <= bs[0] < 0xF5 then
      if |bs| >= 4 && Continuation(bs[1]) && Continuation(bs[2]) && Continuation(bs[3]) then
        var cp := (((bs[0] as int - 0xF0) * 0x40 + (bs[1] as int - 0x80)) * 0x40 + (bs[2] as int - 0x80)) * 0x40 + (bs[3] as int - 0x80);
        if 0x1_0000 <= cp < 0x11_0000 then Some((cp as char, 4)) else None
      else None
    else None
  }

  /** The text a byte string encodes in UTF-8, or `None` when it is not well formed. */
  function Utf8Decode(bs: seq<Byte>): Option<string>
    decreases |bs|
  {
    if bs == [] then Some("")
    else match Utf8DecodeChar(bs)
      case None => None
      case Some((c, n)) =>
        match Utf8Decode(bs[n..])
        case None => None
        case Some(s) => Some([c] + s)
  }

  /** Decoding reads back the character `Utf8` wrote, and exactly its bytes. */
  lemma Utf8DecodeEncodedChar(c: char, t: seq<Byte>)
    ensures Utf8DecodeChar(Utf8(c) + t) == Some((c, |Utf8(c)|))
  {
    var cp := c as int;
    if cp < 0x80 {
    } else if cp < 0x800 {
      DecodeTwoBytes(c, t);
    } else if cp < 0x1_0000 {
      DecodeThreeBytes(c, t);
    } else {
      DecodeFourBytes(c, t);
    }
  }

  lemma DecodeTwoBytes(c: char, t: seq<Byte>)
    requires 0x80 <= c as int < 0x800
    ensures Utf8DecodeChar(Utf8(c) + t) == Some((c, 2))
  {
    var cp := c as int;
    var bs := Utf8(c) + t;
    assert bs[0] == 0xC0 + cp / 0x40 && bs[1] == 0x80 + cp % 0x40;
    assert (bs[0] as int - 0xC0) * 0x40 + (bs[1] as int - 0x80) == cp;
  }

  lemma DecodeThreeBytes(c: char, t: seq<Byte>)
    requires 0x800 <= c as int < 0x1_0000
    ensures Utf8DecodeChar(Utf8(c) + t) == Some((c, 3))
  {
    var cp := c as int;
    var bs := Utf8(c) + t;
    assert bs[0] == 0xE0 + cp / 0x1000 && bs[1] == 0x80 + (cp / 0x40) % 0x40 && bs[2] == 0x80 + cp % 0x40;
    assert (cp / 0x1000) * 0x40 + (cp / 0x40) % 0x40 == cp / 0x40;
    assert ((bs[0] as int - 0xE0) * 0x40 + (bs[1] as int - 0x80)) * 0x40 + (bs[2] as int - 0x80) == cp;
  }

  lemma DecodeFourBytes(c: char, t: seq<Byte>)
    requires 0x1_0000 <= c as int
    ensures Utf8DecodeChar(Utf8(c) + t) == Some((c, 4))
  {
    var cp := c as int;
    var bs := Utf8(c) + t;
    assert bs[0] == 0xF0 + cp / 0x4_0000 && bs[1] == 0x80 + (cp / 0x1000) % 0x40;
    assert bs[2] == 0x80 + (cp / 0x40) % 0x40 && bs[3] == 0x80 + cp % 0x40;
    assert (cp / 0x4_0000) * 0x40 + (cp / 0x1000) % 0x40 == cp / 0x1000;
    assert (cp / 0x1000) * 0x40 + (cp / 0x40) % 0x40 == cp / 0x40;
    assert (((bs[0] as int - 0xF0) * 0x40 + (bs[1] as int - 0x80)) * 0x40 + (bs[2] as int - 0x80)) * 0x40 + (bs[3] as int - 0x80) == cp;
  }

  /** UTF-8 loses nothing: decoding the bytes of any text gives the text back. */
  lemma {:induction false} Utf8RoundTrip(s: string)
    ensures Utf8Decode(Utf8String(s)) == Some(s)
  {
    if s != [] {
      var bs := Utf8String(s);
      Utf8DecodeEncodedChar(s[0], Utf8String(s[1..]));
      assert bs[|Utf8(s[0])|..] == Utf8String(s[1..]);
      Utf8RoundTrip(s[1..]);
      assert [s[0]] + s[1..] == s;
    }
  }

  // ------------------------------------------------------------- encoding

  /** The characters java.net.URLEncoder leaves as they are. */
  predicate Unreserved(c: char) {
    'a' <= c <= 'z' || 'A' <= c <= 'Z' || '0' <= c <= '9' || c == '.' || c == '-' || c == '*' || c == '_'
  }

  /** The characters an encoded name or value can be made of. */
  predicate FormSafe(c: char) {
    Unreserved(c) || c == '+' || c == '%'
  }

  function HexDigit(n: nat): (c: char)
    requires n < 16
    ensures Unreserved(c) && c != '*'
  {
    if n < 10 then ('0' as int + n) as char else ('A' as int + n - 10) as char
  }

  function HexValue(c: char): (r: Option<nat>)
    ensures r.Some? ==> r.value < 16
  {
    if '0' <= c <= '9' then Some(c as int - '0' as int)
    else if 'A' <= c <= 'F' then Some(c as int - 'A' as int + 10)
    else None
  }

  lemma HexDigitValue(n: nat)
    requires n < 16
    ensures HexValue(HexDigit(n)) == Some(n)
  {
  }

  function PercentBytes(bs: seq<Byte>): (s: string)
    ensures |s| == 3 * |bs|
    ensures forall i :: 0 <= i < |s| ==> FormSafe(s[i]) && s[i] != '*'
  {
    if bs == [] then [] else ['%', HexDigit(bs[0] / 16), HexDigit(bs[0] % 16)] + PercentBytes(bs[1..])
  }

  function EncodeChar(c: char): (s: string)
    ensures forall i :: 0 <= i < |s| ==> FormSafe(s[i])
  {
    if Unreserved(c) then [c] else if c == ' ' then "+" else PercentBytes(Utf8(c))
  }

  /** `URLEncoder.encode(s, "UTF-8")`. */
  function EncodeComponent(s: string): (r: string)
    ensures forall i :: 0 <= i < |r| ==> FormSafe(r[i])
  {
    if s == [] then [] else EncodeChar(s[0]) + EncodeComponent(s[1..])
  }

  function ValueText(v: Option<string>): string {
    if v.Some? then v.value else ""
  }

  function Field(p: Param): string {
    EncodeComponent(p.name) + "=" + EncodeComponent(ValueText(p.value))
  }

  /**
   * `URLEncodedUtils.format(params, "UTF-8")`: one `name=value` field per
   * parameter, joined by `&`. Encoded names and values contain neither `=` nor
   * `&`, so the body has exactly one `=` per parameter and one `&` between two.
   */
  function Format(ps: seq<Param>): (r: string)
    ensures r == "" <==> ps == []
    ensures Count(r, '=') == |ps|
    ensures Count(r, '&') == if ps == [] then 0 else |ps| - 1
    ensures forall i :: 0 <= i < |r| ==> FormSafe(r[i]) || r[i] == '=' || r[i] == '&'
  {
    if |ps| == 0 then ""
    else
      FieldCounts(ps[0]);
      if |ps| == 1 then Field(ps[0])
      else
        JoinCounts(Field(ps[0]), Format(ps[1..]), '=');
        JoinCounts(Field(ps[0]), Format(ps[1..]), '&');
        Field(ps[0]) + "&" + Format(ps[1..])
  }

  /** One field holds a single `=` and no `&`. */
  lemma FieldCounts(p: Param)
    ensures Count(Field(p), '=') == 1 && Count(Field(p), '&') == 0
    ensures forall i :: 0 <= i < |Field(p)| ==> FormSafe(Field(p)[i]) || Field(p)[i] == '='
  {
    var name, value := EncodeComponent(p.name), EncodeComponent(ValueText(p.value));
    CountAbsent(name, '='); CountAbsent(name, '&');
    CountAbsent(value, '='); CountAbsent(value, '&');
    CountAppend(name, "=", '='); CountAppend(name + "=", value, '=');
    CountAppend(name, "=", '&'); CountAppend(name + "=", value, '&');
  }

  lemma JoinCounts(a: string, b: string, c: char)
    ensures Count(a + "&" + b, c) == Count(a, c) + (if c == '&' then 1 else 0) + Count(b, c)
  {
    CountAppend(a, "&", c);
    CountAppend(a + "&", b, c);
  }

  /** How many times `c` occurs in `s`. */
  function Count(s: string, c: char): nat {
    if s == [] then 0 else (if s[0] == c then 1 else 0) + Count(s[1..], c)
  }

  lemma {:induction false} CountAppend(a: string, b: string, c: char)
    ensures Count(a + b, c) == Count(a, c) + Count(b, c)
  {
    if a == [] {
      assert a + b == b;
    } else {
      assert (a + b)[1..] == a[1..] + b;
      CountAppend(a[1..], b, c);
    }
  }

  lemma {:induction false} CountAbsent(s: string, c: char)
    requires forall i :: 0 <= i < |s| ==> FormSafe(s[i])
    requires !FormSafe(c)
    ensures Count(s, c) == 0
  {
    if s != [] {
      CountAbsent(s[1..], c);
    }
  }

  /** `s.replace("*", "%2A")`. */
  function ReplaceStar(s: string): (r: string)
    ensures '*' !in r
    ensures |r| == |s| + 2 * Count(s, '*')
    ensures forall i :: 0 <= i < |r| ==> r[i] in s || r[i] in "%2A"
  {
    if s == [] then [] else (if s[0] == '*' then "%2A" else [s[0]]) + ReplaceStar(s[1..])
  }

  /** The body HttpBodyUrlEncoded computes from its parameters. */
  function Encode(ps: seq<Param>): (r: string)
    ensures '*' !in r
    ensures forall i :: 0 <= i < |r| ==> r[i] as int < 0x80
  {
    ReplaceStar(Format(ps))
  }

  // ------------------------------------------------------------- decoding

  /** `Some(bs + r)` when `r` is `Some`. */
  function Prepend(bs: seq<Byte>, r: Option<seq<Byte>>): Option<seq<Byte>> {
    if r.Some? then Some(bs + r.value) else None
  }

  /** Percent-decoding of one name or value: `%XX` is a byte, `+` a space. */
  function DecodeComponent(s: string): Option<seq<Byte>>
    decreases |s|
  {
    if s == [] then Some([])
    else if s[0] == '%' then
      if |s| < 3 then None
      else
        var hi, lo := HexValue(s[1]), HexValue(s[2]);
        if hi.Some? && lo.Some? then Prepend([hi.value * 16 + lo.value], DecodeComponent(s[3..])) else None
    else if s[0] == '+' then Prepend([' ' as int], DecodeComponent(s[1..]))
    else if s[0] as int < 0x80 && s[0] != '&' && s[0] != '=' then Prepend([s[0] as int], DecodeComponent(s[1..]))
    else None
  }

  /** The pieces of `s` between occurrences of `sep`. */
  function Split(s: string, sep: char): (parts: seq<string>)
    ensures |parts| >= 1
  {
    if s == [] then [[]]
    else
      var tail := Split(s[1..], sep);
      if s[0] == sep then [[]] + tail else [[s[0]] + tail[0]] + tail[1..]
  }

  function DecodeField(f: string): Option<Pair> {
    var parts := Split(f, '=');
    if |parts| != 2 then None
    else
      var name, value := DecodeComponent(parts[0]), DecodeComponent(parts[1]);
      if name.Some? && value.Some? then Some((name.value, value.value)) else None
  }

  function DecodeFields(fs: seq<string>): Option<seq<Pair>> {
    if fs == [] then Some([])
    else
      var first, rest := DecodeField(fs[0]), DecodeFields(fs[1..]);
      if first.Some? && rest.Some? then Some([first.value] + rest.value) else None
  }

  /** Reads a form body back into the bytes of its names and values. */
  function DecodeForm(s: string): Option<seq<Pair>> {
    if s == [] then Some([]) else DecodeFields(Split(s, '&'))
  }

  /** What decoding the body of `ps` must give. */
  function Expected(ps: seq<Param>): seq<Pair> {
    if ps == [] then [] else [(Utf8String(ps[0].name), Utf8String(ValueText(ps[0].value)))] + Expected(ps[1..])
  }

  // ---------------------------------------------------------------- proofs

  lemma {:induction false} SplitWithout(a: string, sep: char)
    requires sep !in a
    ensures Split(a, sep) == [a]
    decreases |a|
  {
    if a != [] {
      SplitWithout(a[1..], sep);
      assert [a[0]] + a[1..] == a;
    }
  }

  lemma {:induction false} SplitAt(a: string, b: string, sep: char)
    requires sep !in a
    ensures Split(a + [sep] + b, sep) == [a] + Split(b, sep)
    decreases |a|
  {
    if a == [] {
      assert a + [sep] + b == [sep] + b;
      assert ([sep] + b)[1..] == b;
    } else {
      assert (a + [sep] + b)[1..] == a[1..] + [sep] + b;
      SplitAt(a[1..], b, sep);
      assert [a[0]] + a[1..] == a;
    }
  }

  lemma {:induction false} ReplaceStarAppend(a: string, b: string)
    ensures ReplaceStar(a + b) == ReplaceStar(a) + ReplaceStar(b)
    decreases |a|
  {
    if a != [] {
      assert (a + b)[1..] == a[1..] + b;
      ReplaceStarAppend(a[1..], b);
    } else {
      assert a + b == b;
    }
  }

  lemma {:induction false} ReplaceStarIdentity(s: string)
    requires '*' !in s
    ensures ReplaceStar(s) == s
    decreases |s|
  {
    if s != [] {
      ReplaceStarIdentity(s[1..]);
      assert [s[0]] + s[1..] == s;
    }
  }

  lemma {:induction false} DecodePercentBytes(bs: seq<Byte>, t: string)
    ensures DecodeComponent(PercentBytes(bs) + t) == Prepend(bs, DecodeComponent(t))
    decreases |bs|
  {
    if bs == [] {
      assert PercentBytes(bs) + t == t;
      var d := DecodeComponent(t);
      if d.Some? {
        assert bs + d.value == d.value;
      }
    } else {
      var s := PercentBytes(bs) + t;
      var b := bs[0];
      HexDigitValue(b / 16);
      HexDigitValue(b % 16);
      assert s[0] == '%' && s[1] == HexDigit(b / 16) && s[2] == HexDigit(b % 16);
      assert s[3..] == PercentBytes(bs[1..]) + t;
      DecodePercentBytes(bs[1..], t);
      assert (b / 16) * 16 + b % 16 == b;
      assert DecodeComponent(s) == Prepend([b], Prepend(bs[1..], DecodeComponent(t)));
      var d := DecodeComponent(t);
      if d.Some? {
        assert [b] + (bs[1..] + d.value) == bs + d.value;
      }
    }
  }

  lemma DecodeEncodedChar(c: char, t: string)
    ensures DecodeComponent(ReplaceStar(EncodeChar(c)) + t) == Prepend(Utf8(c), DecodeComponent(t))
  {
    if c == '*' {
      var s := ReplaceStar(EncodeChar(c)) + t;
      assert s[..3] == "%2A" && s[3..] == t;
    } else if Unreserved(c) {
      assert ReplaceStar(EncodeChar(c)) == [c];
      assert ([c] + t)[1..] == t;
    } else if c == ' ' {
      assert ReplaceStar(EncodeChar(c)) == "+";
      assert ("+" + t)[1..] == t;
    } else {
      ReplaceStarIdentity(PercentBytes(Utf8(c)));
      DecodePercentBytes(Utf8(c), t);
    }
  }

  /** The encoding of a name or value once its stars are rewritten. */
  function StrictComponent(s: string): string {
    ReplaceStar(EncodeComponent(s))
  }

  lemma {:induction false} DecodeStrictComponent(s: string)
    ensures DecodeComponent(StrictComponent(s)) == Some(Utf8String(s))
    decreases |s|
  {
    if s != [] {
      ReplaceStarAppend(EncodeChar(s[0]), EncodeComponent(s[1..]));
      DecodeEncodedChar(s[0], StrictComponent(s[1..]));
      DecodeStrictComponent(s[1..]);
    }
  }

  lemma StrictComponentSeparators(s: string)
    ensures '=' !in StrictComponent(s) && '&' !in StrictComponent(s)
  {
    var e := EncodeComponent(s);
    var r := ReplaceStar(e);
    forall i | 0 <= i < |r|
      ensures r[i] != '=' && r[i] != '&'
    {
      if r[i] in e {
        var k :| 0 <= k < |e| && e[k] == r[i];
        assert FormSafe(e[k]);
      }
    }
  }

  function StrictField(p: Param): string {
    StrictComponent(p.name) + "=" + StrictComponent(ValueText(p.value))
  }

  lemma StrictFieldIsField(p: Param)
    ensures ReplaceStar(Field(p)) == StrictField(p)
  {
    var n, v := EncodeComponent(p.name), EncodeComponent(ValueText(p.value));
    ReplaceStarAppend(n + "=", v);
    ReplaceStarAppend(n, "=");
  }

  lemma SplitField(a: string, b: string)
    requires '=' !in a && '=' !in b
    ensures Split(a + "=" + b, '=') == [a, b]
  {
    SplitAt(a, b, '=');
    SplitWithout(b, '=');
  }

  lemma StrictFieldDecodes(p: Param)
    ensures '&' !in StrictField(p) && '=' in StrictField(p)
    ensures DecodeField(StrictField(p)) == Some((Utf8String(p.name), Utf8String(ValueText(p.value))))
  {
    var a, b := StrictComponent(p.name), StrictComponent(ValueText(p.value));
    StrictComponentSeparators(p.name);
    StrictComponentSeparators(ValueText(p.value));
    assert StrictField(p) == a + "=" + b;
    assert (a + "=" + b)[|a|] == '=';
    SplitField(a, b);
    DecodeStrictComponent(p.name);
    DecodeStrictComponent(ValueText(p.value));
  }

  lemma FormatCons(ps: seq<Param>)
    requires |ps| > 1
    ensures ReplaceStar(Format(ps)) == StrictField(ps[0]) + "&" + ReplaceStar(Format(ps[1..]))
  {
    var f, rest := Field(ps[0]), Format(ps[1..]);
    assert Format(ps) == f + "&" + rest;
    ReplaceStarJoin(f, rest);
    StrictFieldIsField(ps[0]);
  }

  lemma ReplaceStarJoin(a: string, b: string)
    ensures ReplaceStar(a + "&" + b) == ReplaceStar(a) + "&" + ReplaceStar(b)
  {
    ReplaceStarAppend(a + "&", b);
    ReplaceStarAppend(a, "&");
  }

  lemma {:induction false} SplitEncoded(ps: seq<Param>)
    requires |ps| >= 1
    ensures DecodeFields(Split(ReplaceStar(Format(ps)), '&')) == Some(Expected(ps))
    decreases |ps|
  {
    var f := StrictField(ps[0]);
    StrictFieldDecodes(ps[0]);
    var first := (Utf8String(ps[0].name), Utf8String(ValueText(ps[0].value)));
    if |ps| == 1 {
      StrictFieldIsField(ps[0]);
      SplitWithout(f, '&');
      assert Expected(ps) == [first] + Expected([]);
    } else {
      var rest := ReplaceStar(Format(ps[1..]));
      FormatCons(ps);
      SplitAt(f, rest, '&');
      var parts := [f] + Split(rest, '&');
      assert parts[0] == f && parts[1..] == Split(rest, '&');
      SplitEncoded(ps[1..]);
      assert DecodeFields(parts) == Some([first] + Expected(ps[1..]));
    }
  }

  /** Decoding the body gives back every parameter's name and value, in order. */
  lemma EncodeRoundTrip(ps: seq<Param>)
    ensures DecodeForm(Encode(ps)) == Some(Expected(ps))
  {
    if |ps| >= 1 {
      SplitEncoded(ps);
      StrictFieldIsField(ps[0]);
      StrictFieldDecodes(ps[0]);
      assert Encode(ps) != [] by {
        if |ps| > 1 {
          ReplaceStarAppend(Field(ps[0]) + "&", Format(ps[1..]));
          ReplaceStarAppend(Field(ps[0]), "&");
        }
        assert '=' in StrictField(ps[0]);
      }
    }
  }

  // --------------------------------------------------------- text round trip

  /** The decoded pairs read as UTF-8 text; `None` if any name or value is not well formed. */
  function DecodeText(pairs: seq<Pair>): Option<seq<(string, string)>> {
    if pairs == [] then Some([])
    else match (Utf8Decode(pairs[0].0), Utf8Decode(pairs[0].1), DecodeText(pairs[1..]))
      case (Some(name), Some(value), Some(rest)) => Some([(name, value)] + rest)
      case _ => None
  }

  /** What a server reads from a form body: each parameter's name and value as text. */
  function DecodeFormText(s: string): Option<seq<(string, string)>> {
    match DecodeForm(s)
    case None => None
    case Some(pairs) => DecodeText(pairs)
  }

  /** The parameters as text, with a null value read as the empty string. */
  function ExpectedText(ps: seq<Param>): seq<(string, string)> {
    if ps == [] then [] else [(ps[0].name, ValueText(ps[0].value))] + ExpectedText(ps[1..])
  }

  lemma {:induction false} DecodeExpected(ps: seq<Param>)
    ensures DecodeText(Expected(ps)) == Some(ExpectedText(ps))
  {
    if ps != [] {
      Utf8RoundTrip(ps[0].name);
      Utf8RoundTrip(ValueText(ps[0].value));
      assert Expected(ps)[1..] == Expected(ps[1..]);
      DecodeExpected(ps[1..]);
    }
  }

  /** Decoding the body as text gives back every parameter's name and value, in order. */
  lemma EncodeTextRoundTrip(ps: seq<Param>)
    ensures DecodeFormText(Encode(ps)) == Some(ExpectedText(ps))
  {
    EncodeRoundTrip(ps);
    DecodeExpected(ps);
  }
}

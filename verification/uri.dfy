/** `encodeURIComponent` of ECMA-262 (the URI Handling Functions, section 19.2.6 of
    the current editions): every character outside the unreserved set is written as
    the percent-encoded octets of its UTF-8 form (section 2.1 of RFC 3986), with
    upper-case hexadecimal digits. `Decode` is the matching `decodeURIComponent`,
    the inverse a server applies to the path segment. */
module UriEncoding {
  import opened Wrappers
  import Strings

  type Byte = b: int | 0 <= b < 256

  /** ECMA-262's uriUnreserved: ASCII letters, decimal digits and the marks
      - _ . ! ~ * ' ( ) */
  predicate Unreserved(c: char): (r: bool)
    ensures r ==> c as int < 0x80 && c != '%'
  {
    || ('A' <= c <= 'Z') || ('a' <= c <= 'z') || ('0' <= c <= '9')
    || c == '-' || c == '_' || c == '.' || c == '!' || c == '~'
    || c == '*' || c == '\'' || c == '(' || c == ')'
  }

  /** ECMA-262's uriAlpha, DecimalDigit and uriMark, as the lists it gives. */
  const UriAlpha: string :=
    seq(26, i requires 0 <= i < 26 => ('a' as int + i) as char) + seq(26, i requires 0 <= i < 26 => ('A' as int + i) as char)
  const DecimalDigits: string := seq(10, i requires 0 <= i < 10 => ('0' as int + i) as char)
  const UriMark: string := "-_.!~*'()"

  /** The unreserved set is exactly the union of ECMA-262's three lists. */
  lemma UnreservedIsUriUnreserved(c: char)
    ensures Unreserved(c) <==> c in UriAlpha || c in DecimalDigits || c in UriMark
  {
    var lower := seq(26, i requires 0 <= i < 26 => ('a' as int + i) as char);
    var upper := seq(26, i requires 0 <= i < 26 => ('A' as int + i) as char);
    if 'a' <= c <= 'z' {
      assert lower[c as int - 'a' as int] == c;
    } else if 'A' <= c <= 'Z' {
      assert upper[c as int - 'A' as int] == c;
    } else if '0' <= c <= '9' {
      assert DecimalDigits[c as int - '0' as int] == c;
    }
    assert c in UriAlpha <==> c in lower || c in upper;
  }

  /** An upper-case hexadecimal digit. */
  predicate UpperHex(c: char) {
    ('0' <= c <= '9') || ('A' <= c <= 'F')
  }

  /** A character that can appear in the output of `EncodeUriComponent`: an
      unreserved one (upper-case hex digits among them) or the `%` of an escape. */
  predicate Encoded(c: char) {
    Unreserved(c) || c == '%'
  }

  /** The upper-case hexadecimal digit for `n`. */
  function HexDigit(n: int): (r: char)
    requires 0 <= n < 16
    ensures UpperHex(r)
    ensures HexValue(r) == Some(n)
  {
    if n < 10 then ('0' as int + n) as char else ('A' as int + (n - 10)) as char
  }

  /** The value of a hexadecimal digit of either case, as `decodeURIComponent` reads it. */
  function HexValue(c: char): (r: Option<int>)
    ensures r.Some? ==> 0 <= r.value < 16
    ensures r.Some? <==> UpperHex(c) || ('a' <= c <= 'f')
  {
    if '0' <= c <= '9' then Some(c as int - '0' as int)
    else if 'A' <= c <= 'F' then Some(c as int - 'A' as int + 10)
    else if 'a' <= c <= 'f' then Some(c as int - 'a' as int + 10)
    else None
  }

  /** The UTF-8 octets of one Unicode scalar value (section 3 of RFC 3629). */
  function Utf8(c: char): (r: seq<Byte>)
    ensures 1 <= |r| <= 4
    ensures |r| == 1 <==> c as int < 0x80
    ensures forall i :: 1 <= i < |r| ==> Continuation(r[i])
  {
    var cp := c as int;
    if cp < 0x80 then [cp]
    else if cp < 0x800 then [0xC0 + cp / 64, 0x80 + cp % 64]
    else if cp < 0x10000 then [0xE0 + cp / 4096, 0x80 + (cp / 64) % 64, 0x80 + cp % 64]
    else [0xF0 + cp / 262144, 0x80 + (cp / 4096) % 64, 0x80 + (cp / 64) % 64, 0x80 + cp % 64]
  }

  /** Every `%` of `r` starts a complete escape of two upper-case hex digits. */
  predicate WellFormedEscapes(r: string) {
    forall i :: 0 <= i < |r| && r[i] == '%' ==> i + 2 < |r| && UpperHex(r[i + 1]) && UpperHex(r[i + 2])
  }

  /** Text of escapes and upper-case hex digits only: no lower-case letter. */
  predicate EscapeText(r: string) {
    forall i :: 0 <= i < |r| ==> r[i] == '%' || UpperHex(r[i])
  }

  /** Well-formed escapes survive concatenation. */
  lemma EscapesConcat(a: string, b: string)
    requires WellFormedEscapes(a) && WellFormedEscapes(b)
    ensures WellFormedEscapes(a + b)
  {
    var r := a + b;
    forall i | 0 <= i < |r| && r[i] == '%'
      ensures i + 2 < |r| && UpperHex(r[i + 1]) && UpperHex(r[i + 2])
    {
      if i < |a| {
        assert a[i] == '%';
      } else {
        assert b[i - |a|] == '%';
      }
    }
  }

  /** `%XY` for one octet. */
  function PercentByte(b: Byte): (r: string)
    ensures |r| == 3 && r[0] == '%' && UpperHex(r[1]) && UpperHex(r[2])
    ensures forall i :: 0 <= i < |r| ==> Encoded(r[i])
    ensures EscapeText(r) && WellFormedEscapes(r)
  {
    ['%', HexDigit(b / 16), HexDigit(b % 16)]
  }

  /** The escapes of a run of octets, in order. */
  function PercentBytes(bs: seq<Byte>): (r: string)
    ensures |r| == 3 * |bs|
    ensures forall i :: 0 <= i < |r| ==> Encoded(r[i])
    ensures EscapeText(r) && WellFormedEscapes(r)
  {
    if |bs| == 0 then []
    else
      EscapesConcat(PercentByte(bs[0]), PercentBytes(bs[1..]));
      PercentByte(bs[0]) + PercentBytes(bs[1..])
  }

  /** One character of `encodeURIComponent`'s output: itself when unreserved,
      otherwise its UTF-8 octets percent-encoded with upper-case digits. */
  function EncodeChar(c: char): (r: string)
    ensures Unreserved(c) ==> r == [c]
    ensures !Unreserved(c) ==> |r| == 3 * |Utf8(c)| && r[0] == '%' && EscapeText(r)
    ensures forall i :: 0 <= i < |r| ==> Encoded(r[i])
    ensures WellFormedEscapes(r)
    ensures !Unreserved(c) ==> ReadEscapes(r, |Utf8(c)|) == Some(Utf8(c))
  {
    if Unreserved(c) then [c]
    else
      ReadPercentBytes(Utf8(c), []);
      assert PercentBytes(Utf8(c)) + [] == PercentBytes(Utf8(c));
      PercentBytes(Utf8(c))
  }

  /** `encodeURIComponent(s)`. The result holds only unreserved characters and `%`,
      so never `/`, `?`, `#` or `&`; every `%` opens an escape of two upper-case hex
      digits; text of unreserved characters only is left as it is. */
  function EncodeUriComponent(s: string): (r: string)
    ensures forall i :: 0 <= i < |r| ==> Encoded(r[i])
    ensures WellFormedEscapes(r)
    ensures (forall i :: 0 <= i < |s| ==> Unreserved(s[i])) ==> r == s
    ensures |r| >= |s|
    decreases |s|
  {
    if |s| == 0 then []
    else
      EscapesConcat(EncodeChar(s[0]), EncodeUriComponent(s[1..]));
      assert (forall i :: 0 <= i < |s| ==> Unreserved(s[i])) ==> Unreserved(s[0]) && forall i :: 0 <= i < |s[1..]| ==> Unreserved(s[1..][i]);
      EncodeChar(s[0]) + EncodeUriComponent(s[1..])
  }

  /** Encoding works character by character: the encoding of a concatenation is the
      concatenation of the encodings. */
  lemma {:induction false} EncodeAppend(a: string, b: string)
    ensures EncodeUriComponent(a + b) == EncodeUriComponent(a) + EncodeUriComponent(b)
    decreases |a|
  {
    if |a| == 0 {
      assert a + b == b;
    } else {
      assert (a + b)[0] == a[0];
      assert (a + b)[1..] == a[1..] + b;
      EncodeAppend(a[1..], b);
      Strings.ConcatAssoc(EncodeChar(a[0]), EncodeUriComponent(a[1..]), EncodeUriComponent(b));
    }
  }

  /** The octet written as `%XY` at the front of `s`, if there is one. */
  function ReadEscape(s: string): (r: Option<Byte>)
    ensures r.Some? ==> |s| >= 3 && s[0] == '%'
  {
    if |s| < 3 || s[0] != '%' then None
    else
      match (HexValue(s[1]), HexValue(s[2]))
      case (Some(hi), Some(lo)) => Some(16 * hi + lo)
      case _ => None
  }

  /** `n` consecutive escapes at the front of `s`. */
  function ReadEscapes(s: string, n: nat): (r: Option<seq<Byte>>)
    ensures r.Some? ==> |r.value| == n && 3 * n <= |s|
    decreases n
  {
    if n == 0 then Some([])
    else
      match ReadEscape(s)
      case None => None
      case Some(b) =>
        match ReadEscapes(s[3..], n - 1)
        case None => None
        case Some(bs) => Some([b] + bs)
  }

  /** The length of the UTF-8 sequence a leading octet announces, or 0 when the
      octet cannot lead one. */
  function SequenceLength(b: Byte): (n: nat)
    ensures n <= 4
  {
    if b < 0x80 then 1
    else if b < 0xC0 then 0
    else if b < 0xE0 then 2
    else if b < 0xF0 then 3
    else if b < 0xF8 then 4
    else 0
  }

  predicate Continuation(b: Byte) {
    0x80 <= b < 0xC0
  }

  /** The scalar value a whole UTF-8 sequence encodes. Overlong forms, surrogates
      and values past U+10FFFF are not valid encodings and give None. */
  function Utf8Decode(bs: seq<Byte>): Option<char>
  {
    if |bs| == 1 && bs[0] < 0x80 then
      Some(bs[0] as char)
    else if |bs| == 2 && 0xC0 <= bs[0] < 0xE0 && Continuation(bs[1]) then
      var cp := (bs[0] as int - 0xC0) * 64 + (bs[1] as int - 0x80);
      if cp < 0x80 then None else Some(cp as char)
    else if |bs| == 3 && 0xE0 <= bs[0] < 0xF0 && Continuation(bs[1]) && Continuation(bs[2]) then
      var cp := (bs[0] as int - 0xE0) * 4096 + (bs[1] as int - 0x80) * 64 + (bs[2] as int - 0x80);
      if cp < 0x800 || (0xD800 <= cp < 0xE000) then None else Some(cp as char)
    else if |bs| == 4 && 0xF0 <= bs[0] < 0xF8 && Continuation(bs[1]) && Continuation(bs[2]) && Continuation(bs[3]) then
      var cp := (bs[0] as int - 0xF0) * 262144 + (bs[1] as int - 0x80) * 4096 + (bs[2] as int - 0x80) * 64 + (bs[3] as int - 0x80);
      if cp < 0x10000 || cp > 0x10FFFF then None else Some(cp as char)
    else
      None
  }

  function Prepend(c: char, rest: Option<string>): (r: Option<string>)
    ensures r.Some? <==> rest.Some?
    ensures r.Some? ==> r.value == [c] + rest.value
  {
    match rest
    case None => None
    case Some(t) => Some([c] + t)
  }

  /** `decodeURIComponent(s)`: escapes are gathered into whole UTF-8 sequences and
      decoded; anything malformed is an error (None). */
  function Decode(s: string): Option<string>
    decreases |s|
  {
    if |s| == 0 then Some([])
    else if s[0] != '%' then Prepend(s[0], Decode(s[1..]))
    else
      match ReadEscape(s)
      case None => None
      case Some(b) =>
        var n := SequenceLength(b);
        if n == 0 then None
        else
          match ReadEscapes(s, n)
          case None => None
          case Some(bs) =>
            match Utf8Decode(bs)
            case None => None
            case Some(c) => Prepend(c, Decode(s[3 * n..]))
  }

  /** Reading an escape back gives the octet that was written. */
  lemma ReadPercentByte(b: Byte, rest: string)
    ensures ReadEscape(PercentByte(b) + rest) == Some(b)
  {
    var s := PercentByte(b) + rest;
    assert s[1] == HexDigit(b / 16) && s[2] == HexDigit(b % 16);
  }

  /** Reading a run of escapes back gives the octets that were written. */
  lemma {:induction false} ReadPercentBytes(bs: seq<Byte>, rest: string)
    ensures ReadEscapes(PercentBytes(bs) + rest, |bs|) == Some(bs)
    decreases |bs|
  {
    if |bs| > 0 {
      var s := PercentBytes(bs) + rest;
      assert s == PercentByte(bs[0]) + (PercentBytes(bs[1..]) + rest);
      ReadPercentByte(bs[0], PercentBytes(bs[1..]) + rest);
      assert s[3..] == PercentBytes(bs[1..]) + rest;
      ReadPercentBytes(bs[1..], rest);
      assert [bs[0]] + bs[1..] == bs;
    }
  }

  /** The leading octet of a character's UTF-8 form announces the form's length. */
  lemma Utf8Lead(c: char)
    ensures SequenceLength(Utf8(c)[0]) == |Utf8(c)|
  {
  }

  /** UTF-8 decoding inverts UTF-8 encoding of a scalar value. */
  lemma Utf8RoundTrip(c: char)
    ensures Utf8Decode(Utf8(c)) == Some(c)
  {
    var cp := c as int;
    if cp < 0x80 {
    } else if cp < 0x800 {
      Utf8RoundTrip2(c);
    } else if cp < 0x10000 {
      Utf8RoundTrip3(c);
    } else {
      Utf8RoundTrip4(c);
    }
  }

  lemma Utf8RoundTrip2(c: char)
    requires 0x80 <= c as int < 0x800
    ensures Utf8Decode(Utf8(c)) == Some(c)
  {
    var cp := c as int;
    assert (cp / 64) * 64 + cp % 64 == cp;
  }

  lemma Utf8RoundTrip3(c: char)
    requires 0x800 <= c as int < 0x10000
    ensures Utf8Decode(Utf8(c)) == Some(c)
  {
    var cp := c as int;
    assert (cp / 4096) * 64 + (cp / 64) % 64 == cp / 64;
    assert (cp / 64) * 64 + cp % 64 == cp;
  }

  lemma Utf8RoundTrip4(c: char)
    requires 0x10000 <= c as int
    ensures Utf8Decode(Utf8(c)) == Some(c)
  {
    var cp := c as int;
    assert (cp / 262144) * 64 + (cp / 4096) % 64 == cp / 4096;
    assert (cp / 4096) * 64 + (cp / 64) % 64 == cp / 64;
    assert (cp / 64) * 64 + cp % 64 == cp;
  }

  /** Decoding an encoded character followed by more text yields that character
      in front of the decoded rest. */
  lemma DecodeEncodeChar(c: char, rest: string)
    ensures Decode(EncodeChar(c) + rest) == Prepend(c, Decode(rest))
  {
    var s := EncodeChar(c) + rest;
    if Unreserved(c) {
      assert s[0] == c && s[1..] == rest;
    } else {
      DecodeEscapedChar(c, rest);
    }
  }

  /** The escaped form of a character decodes back to it. */
  lemma DecodeEscapedChar(c: char, rest: string)
    ensures Decode(PercentBytes(Utf8(c)) + rest) == Prepend(c, Decode(rest))
  {
    Utf8Lead(c);
    Utf8RoundTrip(c);
    DecodeEscapedBytes(Utf8(c), c, rest);
  }

  /** Escapes of a whole UTF-8 sequence decode to the character it encodes. */
  lemma DecodeEscapedBytes(bs: seq<Byte>, c: char, rest: string)
    requires 1 <= |bs| && SequenceLength(bs[0]) == |bs|
    requires Utf8Decode(bs) == Some(c)
    ensures Decode(PercentBytes(bs) + rest) == Prepend(c, Decode(rest))
  {
    var s := PercentBytes(bs) + rest;
    ReadPercentBytes(bs, rest);
    ReadPercentByte(bs[0], PercentBytes(bs[1..]) + rest);
    assert s == PercentByte(bs[0]) + (PercentBytes(bs[1..]) + rest);
    assert s[3 * |bs|..] == rest;
  }

  /** `decodeURIComponent(encodeURIComponent(s)) == s`: the query survives the trip
      to the server unchanged. */
  lemma {:induction false} DecodeEncode(s: string)
    ensures Decode(EncodeUriComponent(s)) == Some(s)
    decreases |s|
  {
    if |s| > 0 {
      DecodeEncode(s[1..]);
      DecodeEncodeChar(s[0], EncodeUriComponent(s[1..]));
      assert [s[0]] + s[1..] == s;
    }
  }
}

/**
 * `encodeURIComponent` of ECMAScript on ASCII text, with the matching
 * percent-decoder. Characters outside the unreserved set of section 2.3 of
 * RFC 3986 (letters, digits and `-._~`) and the five further marks `!*'()`
 * become `%` and two upper-case hexadecimal digits (section 2.1 of RFC 3986).
 */
module Uri {
  import opened Wrappers
  import opened Text

  predicate IsAscii(c: char) {
    c as int < 0x80
  }

  predicate AllAscii(s: string) {
    forall i :: 0 <= i < |s| ==> IsAscii(s[i])
  }

  /** The characters `encodeURIComponent` leaves as they are. */
  predicate IsUnescaped(c: char) {
    ('A' <= c <= 'Z') || ('a' <= c <= 'z') || ('0' <= c <= '9')
    || c == '-' || c == '_' || c == '.' || c == '!' || c == '~'
    || c == '*' || c == '\'' || c == '(' || c == ')'
  }

  predicate IsHexDigit(c: char) {
    ('0' <= c <= '9') || ('A' <= c <= 'F') || ('a' <= c <= 'f')
  }

  function HexChar(d: nat): (c: char)
    requires d < 16
    ensures IsHexDigit(c) && IsAscii(c)
  {
    if d < 10 then ('0' as int + d) as char else ('A' as int + d - 10) as char
  }

  function HexValue(c: char): (d: nat)
    requires IsHexDigit(c)
    ensures d < 16
  {
    if '0' <= c <= '9' then c as int - '0' as int
    else if 'A' <= c <= 'F' then c as int - 'A' as int + 10
    else c as int - 'a' as int + 10
  }

  lemma HexRoundTrip(d: nat)
    requires d < 16
    ensures HexValue(HexChar(d)) == d
  {
  }

  /** One character of the output of `encodeURIComponent`. */
  function EncodeChar(c: char): (r: string)
    requires IsAscii(c)
  {
    if IsUnescaped(c) then [c] else ['%', HexChar(c as int / 16), HexChar(c as int % 16)]
  }

  /** `encodeURIComponent(s)`: its output is made only of unescaped characters and `%`. */
  function EncodeComponent(s: string): (r: string)
    requires AllAscii(s)
    ensures |r| >= |s|
    ensures forall i :: 0 <= i < |r| ==> IsUnescaped(r[i]) || r[i] == '%'
  {
    if s == [] then [] else EncodeChar(s[0]) + EncodeComponent(s[1..])
  }

  function Prepend(c: char, r: Option<string>): Option<string> {
    match r
    case None => None
    case Some(t) => Some([c] + t)
  }

  /**
   * The inverse of `EncodeComponent`: `%XY` with two hexadecimal digits of an
   * ASCII code becomes that character, any other character stands for
   * itself, and a malformed escape is an error, as in `decodeURIComponent`.
   */
  function DecodeComponent(s: string): (r: Option<string>)
  {
    if s == [] then Some([])
    else if s[0] != '%' then Prepend(s[0], DecodeComponent(s[1..]))
    else if |s| >= 3 && IsHexDigit(s[1]) && IsHexDigit(s[2]) && HexValue(s[1]) < 8 then
      Prepend((HexValue(s[1]) * 16 + HexValue(s[2])) as char, DecodeComponent(s[3..]))
    else None
  }

  lemma DecodeEncodedChar(c: char, rest: string)
    requires IsAscii(c)
    ensures DecodeComponent(EncodeChar(c) + rest) == Prepend(c, DecodeComponent(rest))
  {
    var e := EncodeChar(c) + rest;
    if IsUnescaped(c) {
      assert e[1..] == rest;
    } else {
      var n := c as int;
      HexRoundTrip(n / 16);
      HexRoundTrip(n % 16);
      assert e[3..] == rest;
      assert (HexValue(e[1]) * 16 + HexValue(e[2])) as char == c;
    }
  }

  /** Decoding undoes encoding. */
  lemma {:induction false} DecodeEncode(s: string)
    requires AllAscii(s)
    ensures DecodeComponent(EncodeComponent(s)) == Some(s)
  {
    if s != [] {
      DecodeEncode(s[1..]);
      DecodeEncodedChar(s[0], EncodeComponent(s[1..]));
      assert [s[0]] + s[1..] == s;
    }
  }

  /** Distinct strings have distinct encodings. */
  lemma EncodeInjective(a: string, b: string)
    requires AllAscii(a) && AllAscii(b)
    requires EncodeComponent(a) == EncodeComponent(b)
    ensures a == b
  {
    DecodeEncode(a);
    DecodeEncode(b);
  }

  /** A reference definition for text of digits and `/`: each `/` becomes `%2F`. */
  function EscapeSlashes(s: string): (r: string) {
    if s == [] then []
    else (if s[0] == '/' then "%2F" else [s[0]]) + EscapeSlashes(s[1..])
  }

  /** On digits and slashes, `encodeURIComponent` only escapes the slashes. */
  lemma {:induction false} EncodeDigitsAndSlashes(s: string)
    requires forall i :: 0 <= i < |s| ==> IsDigit(s[i]) || s[i] == '/'
    ensures AllAscii(s) && EncodeComponent(s) == EscapeSlashes(s)
  {
    if s != [] {
      EncodeDigitsAndSlashes(s[1..]);
      if s[0] == '/' {
        assert '/' as int / 16 == 2 && '/' as int % 16 == 15;
        assert EncodeChar(s[0]) == "%2F";
      }
    }
  }
}

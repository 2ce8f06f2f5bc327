/** The URI-component codec behind the cookie helpers (`encodeURIComponent` /
    `decodeURIComponent`), for the ASCII range. A character that
    `encodeURIComponent` leaves alone passes through; any other ASCII character
    becomes `%` and two upper-case hex digits. */
module UriComponent {
  import opened Wrappers

  /** The characters `encodeURIComponent` never escapes. */
  predicate Unreserved(c: char) {
    ('A' <= c <= 'Z') || ('a' <= c <= 'z') || ('0' <= c <= '9')
    || c == '-' || c == '_' || c == '.' || c == '!' || c == '~' || c == '*'
    || c == '\'' || c == '(' || c == ')'
  }

  /** An upper-case hex digit, as `encodeURIComponent` writes it. */
  function HexUpper(d: nat): (c: char)
    requires d < 16
    ensures Unreserved(c)
    ensures HexValue(c) == Some(d)
  {
    if d < 10 then (48 + d) as char else (55 + d) as char
  }

  /** The value of a hex digit of either case. */
  function HexValue(c: char): (r: Option<nat>)
    ensures r.Some? ==> r.value < 16
  {
    if '0' <= c <= '9' then Some(c as int - 48)
    else if 'A' <= c <= 'F' then Some(c as int - 55)
    else if 'a' <= c <= 'f' then Some(c as int - 87)
    else None
  }

  /** The characters an encoded text may contain. */
  predicate EncodedChar(c: char) {
    Unreserved(c) || c == '%' || c as int >= 128
  }

  function EncodeChar(c: char): (r: string)
    ensures forall k :: 0 <= k < |r| ==> EncodedChar(r[k])
  {
    if Unreserved(c) || c as int >= 128 then [c]
    else ['%', HexUpper(c as int / 16), HexUpper(c as int % 16)]
  }

  /** `encodeURIComponent(s)`. */
  function Encode(s: string): (r: string)
    ensures forall k :: 0 <= k < |r| ==> EncodedChar(r[k])
    decreases |s|
  {
    if s == [] then [] else EncodeChar(s[0]) + Encode(s[1..])
  }

  /** `decodeURIComponent(s)`: each `%` followed by two hex digits naming an ASCII code
      becomes that character; everything else is kept. */
  function Decode(s: string): string
    decreases |s|
  {
    if |s| >= 3 && s[0] == '%' && HexValue(s[1]).Some? && HexValue(s[2]).Some? && HexValue(s[1]).value < 8 then
      [(HexValue(s[1]).value * 16 + HexValue(s[2]).value) as char] + Decode(s[3..])
    else if s == [] then []
    else [s[0]] + Decode(s[1..])
  }

  /** The encoded text has none of the characters that delimit cookies: `;`, `=`, space. */
  lemma EncodeDelimiterFree(s: string)
    ensures ';' !in Encode(s) && '=' !in Encode(s) && ' ' !in Encode(s) && '\t' !in Encode(s)
  {
    var r := Encode(s);
    assert forall k :: 0 <= k < |r| ==> r[k] != ';' && r[k] != '=' && r[k] != ' ' && r[k] != '\t';
  }

  lemma DecodeEncodeChar(c: char, rest: string)
    ensures Decode(EncodeChar(c) + rest) == [c] + Decode(rest)
  {
    var e := EncodeChar(c);
    if Unreserved(c) || c as int >= 128 {
      assert (e + rest)[0] == c && (e + rest)[1..] == rest;
    } else {
      var t := e + rest;
      assert t[0] == '%' && t[1] == HexUpper(c as int / 16) && t[2] == HexUpper(c as int % 16);
      assert t[3..] == rest;
    }
  }

  /** Decoding undoes encoding. */
  lemma {:induction false} DecodeEncode(s: string)
    ensures Decode(Encode(s)) == s
    decreases |s|
  {
    if s != [] {
      DecodeEncodeChar(s[0], Encode(s[1..]));
      DecodeEncode(s[1..]);
    }
  }

  /** Distinct values have distinct encodings. */
  lemma EncodeInjective(a: string, b: string)
    requires Encode(a) == Encode(b)
    ensures a == b
  {
    DecodeEncode(a);
    DecodeEncode(b);
  }

  /** A value made of unreserved characters only (every theme name, `true`, `false`) is written as is. */
  lemma {:induction false} EncodeUnreserved(s: string)
    requires forall k :: 0 <= k < |s| ==> Unreserved(s[k])
    ensures Encode(s) == s
    decreases |s|
  {
    if s != [] {
      EncodeUnreserved(s[1..]);
      assert s == [s[0]] + s[1..];
    }
  }
}

/** The text of the per-session stylesheet nonce: the 16 random bytes, each
    written as `b.toString(16).padStart(2, '0')`, joined without separator.
    Where the bytes come from is not modelled; they are an input. */
module Nonce {
  import opened Wrappers

  newtype byte = x: int | 0 <= x < 256

  /** A lower-case hex digit, as `Number.prototype.toString(16)` writes it. */
  function HexDigit(d: nat): (c: char)
    requires d < 16
    ensures IsLowerHex(c)
  {
    if d < 10 then (48 + d) as char else (87 + d) as char
  }

  predicate IsLowerHex(c: char) {
    ('0' <= c <= '9') || ('a' <= c <= 'f')
  }

  /** `n.toString(16)`: no leading zeros, "0" for zero. */
  function ToHex(n: nat): (r: string)
    ensures |r| >= 1
    decreases n
  {
    if n < 16 then [HexDigit(n)] else ToHex(n / 16) + [HexDigit(n % 16)]
  }

  /** `s.padStart(len, pad)` for a one-character `pad`. */
  function PadStart(s: string, len: nat, pad: char): (r: string)
    ensures |r| == if |s| >= len then |s| else len
    decreases len - |s|
  {
    if |s| >= len then s else PadStart([pad] + s, len, pad)
  }

  function ByteHex(b: byte): string {
    PadStart(ToHex(b as nat), 2, '0')
  }

  /** `Array.from(bytes).map(b => b.toString(16).padStart(2, '0')).join('')`. */
  function NonceHex(bytes: seq<byte>): string
    decreases |bytes|
  {
    if bytes == [] then "" else ByteHex(bytes[0]) + NonceHex(bytes[1..])
  }

  /** Each byte becomes exactly two lower-case hex digits, high nibble first. */
  lemma ByteHexDigits(b: byte)
    ensures ByteHex(b) == [HexDigit(b as nat / 16), HexDigit(b as nat % 16)]
  {
    var n := b as nat;
    if n < 16 {
      assert ToHex(n) == [HexDigit(n)];
      assert PadStart([HexDigit(n)], 2, '0') == PadStart(['0', HexDigit(n)], 2, '0');
    } else {
      assert ToHex(n / 16) == [HexDigit(n / 16)];
    }
  }

  function HexValue(c: char): Option<nat> {
    if '0' <= c <= '9' then Some(c as int - 48)
    else if 'a' <= c <= 'f' then Some(c as int - 87)
    else None
  }

  /** Reading a nonce text back into bytes: pairs of lower-case hex digits. */
  function ParseHex(s: string): Option<seq<byte>>
    decreases |s|
  {
    if s == [] then Some([])
    else if |s| >= 2 && HexValue(s[0]).Some? && HexValue(s[1]).Some? then
      match ParseHex(s[2..])
      case None => None
      case Some(rest) => Some([(HexValue(s[0]).value * 16 + HexValue(s[1]).value) as byte] + rest)
    else None
  }

  /** The nonce text is twice as long as its bytes and uses only lower-case hex digits. */
  lemma {:induction false} NonceHexShape(bytes: seq<byte>)
    ensures |NonceHex(bytes)| == 2 * |bytes|
    ensures forall k :: 0 <= k < |NonceHex(bytes)| ==> IsLowerHex(NonceHex(bytes)[k])
    decreases |bytes|
  {
    if bytes != [] {
      ByteHexDigits(bytes[0]);
      NonceHexShape(bytes[1..]);
    }
  }

  /** The encoding loses nothing: the text reads back as the same bytes. */
  lemma {:induction false} ParseNonceHex(bytes: seq<byte>)
    ensures ParseHex(NonceHex(bytes)) == Some(bytes)
    decreases |bytes|
  {
    if bytes != [] {
      var b := bytes[0] as nat;
      ByteHexDigits(bytes[0]);
      var s := NonceHex(bytes);
      assert s == [HexDigit(b / 16), HexDigit(b % 16)] + NonceHex(bytes[1..]);
      assert s[2..] == NonceHex(bytes[1..]);
      ParseNonceHex(bytes[1..]);
      assert HexValue(s[0]) == Some(b / 16) && HexValue(s[1]) == Some(b % 16);
      assert [bytes[0]] + bytes[1..] == bytes;
    }
  }
}

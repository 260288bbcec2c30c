/**
 * The URI handling functions of ECMA-262 (section 19.2.6, "URI Handling
 * Functions") that the map component relies on: `encodeURI`, which turns
 * the assembled tile query into a URI, and its inverse `decodeURI`, which
 * the model uses as the partner that shows no information is lost.
 *
 * Strings are sequences of Unicode scalar values, so the UTF-16 surrogate
 * pairs of a JavaScript string appear here as single characters.
 */
module Uri {
  import opened Wrappers

  newtype Byte = b: int | 0 <= b < 256

  predicate IsUriAlpha(c: char) { 'a' <= c <= 'z' || 'A' <= c <= 'Z' }

  predicate IsDecimalDigit(c: char) { '0' <= c <= '9' }

  predicate IsUriMark(c: char) { c in "-_.!~*'()" }

  predicate IsUriReserved(c: char) { c in ";/?:@&=+$," }

  /** The characters `encodeURI` copies unchanged. */
  predicate IsUnescaped(c: char)
  {
    IsUriAlpha(c) || IsDecimalDigit(c) || IsUriMark(c) || IsUriReserved(c) || c == '#'
  }

  /** The characters whose escape sequences `decodeURI` leaves as they are. */
  predicate IsDecodeReserved(c: char) { IsUriReserved(c) || c == '#' }

  /** The characters an encoded URI can hold. */
  predicate IsUriChar(c: char) { IsUnescaped(c) || c == '%' }

  // ---------------------------------------------------------------- hex digits

  /** Upper-case hexadecimal digit, as `encodeURI` writes them. */
  function HexDigit(n: int): (c: char)
    requires 0 <= n < 16
    ensures IsUnescaped(c)
  {
    if n < 10 then ('0' as int + n) as char else ('A' as int + n - 10) as char
  }

  /** Value of a hexadecimal digit of either case. */
  function HexValue(c: char): (v: Option<int>)
    ensures v.Some? ==> 0 <= v.value < 16
    ensures v.Some? <==> ('0' <= c <= '9' || 'A' <= c <= 'F' || 'a' <= c <= 'f')
  {
    if '0' <= c <= '9' then Some(c as int - '0' as int)
    else if 'A' <= c <= 'F' then Some(c as int - 'A' as int + 10)
    else if 'a' <= c <= 'f' then Some(c as int - 'a' as int + 10)
    else None
  }

  lemma HexRoundTrip(n: int)
    requires 0 <= n < 16
    ensures HexValue(HexDigit(n)) == Some(n)
  {
  }

  // ---------------------------------------------------------------- UTF-8

  /** Number of leading one bits of a byte (5 stands for "five or more"). */
  function LeadingOnes(b: Byte): (n: nat)
    ensures n <= 5
  {
    if b < 0x80 then 0
    else if b < 0xC0 then 1
    else if b < 0xE0 then 2
    else if b < 0xF0 then 3
    else if b < 0xF8 then 4
    else 5
  }

  predicate IsContinuation(b: Byte) { 0x80 <= b < 0xC0 }

  /**
   * UTF-8 encoding of one code point: the first byte announces the length
   * by its leading ones (none for a single byte) and every later byte is a
   * continuation byte.
   */
  function Utf8Encode(c: char): (bs: seq<Byte>)
    ensures 1 <= |bs| <= 4
    ensures |bs| == 1 <==> c as int < 0x80
    ensures LeadingOnes(bs[0]) == if |bs| == 1 then 0 else |bs|
    ensures forall i :: 1 <= i < |bs| ==> IsContinuation(bs[i])
  {
    var cp := c as int;
    if cp < 0x80 then
      [cp as Byte]
    else if cp < 0x800 then
      [(0xC0 + cp / 64) as Byte, (0x80 + cp % 64) as Byte]
    else if cp < 0x10000 then
      [(0xE0 + cp / 64 / 64) as Byte, (0x80 + cp / 64 % 64) as Byte, (0x80 + cp % 64) as Byte]
    else
      [(0xF0 + cp / 64 / 64 / 64) as Byte, (0x80 + cp / 64 / 64 % 64) as Byte,
       (0x80 + cp / 64 % 64) as Byte, (0x80 + cp % 64) as Byte]
  }

  /**
   * The code point a UTF-8 sequence of one to four bytes stands for, or
   * `None` when the sequence is not a valid encoding (wrong lead or
   * continuation bytes, an overlong form, a surrogate, or a value above
   * U+10FFFF).
   */
  function Utf8Decode(bs: seq<Byte>): Option<char>
  {
    if |bs| == 1 then
      if bs[0] < 0x80 then Some(bs[0] as int as char) else None
    else if |bs| == 2 then
      if 0xC0 <= bs[0] < 0xE0 && IsContinuation(bs[1]) then
        var cp := (bs[0] as int - 0xC0) * 64 + (bs[1] as int - 0x80);
        if 0x80 <= cp then Some(cp as char) else None
      else None
    else if |bs| == 3 then
      if 0xE0 <= bs[0] < 0xF0 && IsContinuation(bs[1]) && IsContinuation(bs[2]) then
        var cp := ((bs[0] as int - 0xE0) * 64 + (bs[1] as int - 0x80)) * 64 + (bs[2] as int - 0x80);
        if 0x800 <= cp && !(0xD800 <= cp < 0xE000) then Some(cp as char) else None
      else None
    else if |bs| == 4 then
      if 0xF0 <= bs[0] < 0xF8 && IsContinuation(bs[1]) && IsContinuation(bs[2]) && IsContinuation(bs[3]) then
        var cp := (((bs[0] as int - 0xF0) * 64 + (bs[1] as int - 0x80)) * 64 + (bs[2] as int - 0x80)) * 64
                  + (bs[3] as int - 0x80);
        if 0x10000 <= cp <= 0x10FFFF then Some(cp as char) else None
      else None
    else
      None
  }

  lemma Utf8RoundTrip(c: char)
    ensures Utf8Decode(Utf8Encode(c)) == Some(c)
  {
    var cp := c as int;
    var q1 := cp / 64;
    var q2 := q1 / 64;
    var q3 := q2 / 64;
    assert cp == q1 * 64 + cp % 64;
    assert q1 == q2 * 64 + q1 % 64;
    assert q2 == q3 * 64 + q2 % 64;
  }

  // ---------------------------------------------------------------- encodeURI

  /** One octet as `%XY`. */
  function EscapeOctet(b: Byte): (r: string)
    ensures |r| == 3 && r[0] == '%'
    ensures forall i :: 0 <= i < |r| ==> IsUriChar(r[i])
  {
    ['%', HexDigit(b as int / 16), HexDigit(b as int % 16)]
  }

  function EscapeOctets(bs: seq<Byte>): (r: string)
    ensures |r| == 3 * |bs|
    ensures forall i :: 0 <= i < |r| ==> IsUriChar(r[i])
  {
    if bs == [] then [] else EscapeOctet(bs[0]) + EscapeOctets(bs[1..])
  }

  /**
   * One character of `encodeURI`: an unescaped character is copied, any
   * other becomes the escapes of its UTF-8 octets.
   */
  function EncodeChar(c: char): (r: string)
    ensures IsUnescaped(c) ==> r == [c]
    ensures !IsUnescaped(c) ==> 3 <= |r| <= 12 && r[0] == '%'
    ensures forall i :: 0 <= i < |r| ==> IsUriChar(r[i])
  {
    if IsUnescaped(c) then [c] else EscapeOctets(Utf8Encode(c))
  }

  /** `encodeURI(s)`: never fails on a string of scalar values. */
  function EncodeUri(s: string): (r: string)
    ensures |r| >= |s|
    ensures forall i :: 0 <= i < |r| ==> IsUriChar(r[i])
  {
    if s == [] then [] else EncodeChar(s[0]) + EncodeUri(s[1..])
  }

  // ---------------------------------------------------------------- decodeURI

  /** The octet written by the escape `%XY` at the head of `s`. */
  function ReadOctet(s: string): Option<Byte>
  {
    if |s| >= 3 && s[0] == '%' && HexValue(s[1]).Some? && HexValue(s[2]).Some? then
      Some((HexValue(s[1]).value * 16 + HexValue(s[2]).value) as Byte)
    else
      None
  }

  /** The octets of `count` consecutive escapes at the head of `s`. */
  function ReadOctets(s: string, count: nat): (r: Option<seq<Byte>>)
    ensures r.Some? ==> |r.value| == count && 3 * count <= |s|
    decreases count
  {
    if count == 0 then Some([])
    else match ReadOctet(s)
      case None => None
      case Some(b) =>
        match ReadOctets(s[3..], count - 1)
        case None => None
        case Some(rest) => Some([b] + rest)
  }

  /**
   * One step of `decodeURI` at the head of a non-empty string: the text it
   * produces and how many characters it consumed, or `None` where
   * `decodeURI` throws a URIError.
   */
  function DecodeStep(s: string): (r: Option<(string, nat)>)
    requires s != []
    ensures r.Some? ==> 1 <= r.value.1 <= |s|
  {
    if s[0] != '%' then Some(([s[0]], 1))
    else match ReadOctet(s)
      case None => None
      case Some(b) =>
        var n := LeadingOnes(b);
        if n == 0 then
          var c := b as int as char;
          if IsDecodeReserved(c) then Some((s[..3], 3)) else Some(([c], 3))
        else if n == 1 || n > 4 then None
        else match ReadOctets(s[3..], n - 1)
          case None => None
          case Some(tail) =>
            match Utf8Decode([b] + tail)
            case None => None
            case Some(c) => Some(([c], 3 * n))
  }

  /** `decodeURI(s)`, or `None` where it throws a URIError. */
  function DecodeUri(s: string): Option<string>
    decreases |s|
  {
    if s == [] then Some([])
    else match DecodeStep(s)
      case None => None
      case Some((piece, len)) =>
        match DecodeUri(s[len..])
        case None => None
        case Some(rest) => Some(piece + rest)
  }

  // ---------------------------------------------------------------- properties

  lemma {:induction false} EncodeUriAppend(a: string, b: string)
    ensures EncodeUri(a + b) == EncodeUri(a) + EncodeUri(b)
  {
    if a != [] {
      assert (a + b)[0] == a[0] && (a + b)[1..] == a[1..] + b;
      EncodeUriAppend(a[1..], b);
      assert EncodeUri(a + b) == EncodeChar(a[0]) + (EncodeUri(a[1..]) + EncodeUri(b));
    } else {
      assert a + b == b;
    }
  }

  /** `encodeURI` is the identity on strings of unescaped characters. */
  lemma {:induction false} EncodeUriUnescaped(s: string)
    requires forall i :: 0 <= i < |s| ==> IsUnescaped(s[i])
    ensures EncodeUri(s) == s
  {
    if s != [] {
      EncodeUriUnescaped(s[1..]);
    }
  }

  lemma {:induction false} ReadEscapedOctets(bs: seq<Byte>, rest: string)
    ensures ReadOctets(EscapeOctets(bs) + rest, |bs|) == Some(bs)
  {
    if bs != [] {
      var e := EscapeOctet(bs[0]);
      var s := EscapeOctets(bs) + rest;
      assert s == e + (EscapeOctets(bs[1..]) + rest);
      HexRoundTrip(bs[0] as int / 16);
      HexRoundTrip(bs[0] as int % 16);
      assert ReadOctet(s) == Some(bs[0]);
      assert s[3..] == EscapeOctets(bs[1..]) + rest;
      ReadEscapedOctets(bs[1..], rest);
      assert [bs[0]] + bs[1..] == bs;
    }
  }

  lemma DecodeStepEncodeChar(c: char, rest: string)
    ensures DecodeStep(EncodeChar(c) + rest) == Some(([c], |EncodeChar(c)|))
  {
    var s := EncodeChar(c) + rest;
    if !IsUnescaped(c) {
      var bs := Utf8Encode(c);
      ReadEscapedOctets(bs, rest);
      assert ReadOctet(s) == Some(bs[0]);
      Utf8RoundTrip(c);
      if |bs| > 1 {
        assert s[3..] == EscapeOctets(bs[1..]) + rest;
        ReadEscapedOctets(bs[1..], rest);
        assert [bs[0]] + bs[1..] == bs;
      }
    }
  }

  /** `decodeURI` undoes `encodeURI`, so no two strings encode alike. */
  lemma {:induction false} DecodeEncodeUri(s: string)
    ensures DecodeUri(EncodeUri(s)) == Some(s)
  {
    if s != [] {
      var e := EncodeChar(s[0]);
      var rest := EncodeUri(s[1..]);
      DecodeStepEncodeChar(s[0], rest);
      assert (e + rest)[|e|..] == rest;
      DecodeEncodeUri(s[1..]);
      assert [s[0]] + s[1..] == s;
    }
  }

  lemma EncodeUriInjective(a: string, b: string)
    requires EncodeUri(a) == EncodeUri(b)
    ensures a == b
  {
    DecodeEncodeUri(a);
    DecodeEncodeUri(b);
  }
}

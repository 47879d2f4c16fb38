/**
 * Percent-encoding of a URI component, as the browser's encodeURIComponent
 * and decodeURIComponent do it (section 2.1 of RFC 3986 for the `%HH`
 * triplets, UTF-8 as in RFC 3629 for the octets): every character outside
 * A-Z a-z 0-9 - _ . ! ~ * ' ( ) becomes the `%HH` escapes of its UTF-8
 * octets, with upper-case hex digits. Characters are Unicode scalar values,
 * so the encoder's error for a lone surrogate cannot arise.
 */
module Uri {
  import opened Wrappers

  type Byte = b: int | 0 <= b < 256

  /** The characters encodeURIComponent leaves as they are. */
  predicate Unreserved(c: char) {
    ('A' <= c <= 'Z') || ('a' <= c <= 'z') || ('0' <= c <= '9') ||
    c == '-' || c == '_' || c == '.' || c == '!' || c == '~' || c == '*' || c == '\'' || c == '(' || c == ')'
  }

  /** The UTF-8 octets of a scalar value: 1 to 4 of them by magnitude. */
  function Utf8(c: char): (r: seq<Byte>)
    ensures 1 <= |r| <= 4
    ensures (|r| == 1) == (c as int < 0x80)
  {
    var n := c as int;
    if n < 0x80 then [n]
    else if n < 0x800 then [0xC0 + n / 64, 0x80 + n % 64]
    else if n < 0x10000 then [0xE0 + n / 4096, 0x80 + (n / 64) % 64, 0x80 + n % 64]
    else [0xF0 + n / 262144, 0x80 + (n / 4096) % 64, 0x80 + (n / 64) % 64, 0x80 + n % 64]
  }

  /** The upper-case hex digit of a value below 16. */
  function HexDigit(d: int): (c: char)
    requires 0 <= d < 16
    ensures ('0' <= c <= '9') || ('A' <= c <= 'F')
  {
    if d < 10 then ('0' as int + d) as char else ('A' as int + d - 10) as char
  }

  /** The value of a hex digit in either case, or absent for any other character. */
  function HexValue(c: char): (r: Option<int>)
    ensures r.Some? ==> 0 <= r.value < 16
  {
    if '0' <= c <= '9' then Some(c as int - '0' as int)
    else if 'A' <= c <= 'F' then Some(c as int - 'A' as int + 10)
    else if 'a' <= c <= 'f' then Some(c as int - 'a' as int + 10)
    else None
  }

  lemma HexRoundTrip(d: int)
    requires 0 <= d < 16
    ensures HexValue(HexDigit(d)) == Some(d)
  {
  }

  /** `%HH` for one octet. */
  function Escape(b: Byte): (r: string)
    ensures |r| == 3 && r[0] == '%'
  {
    ['%', HexDigit(b / 16), HexDigit(b % 16)]
  }

  function Escapes(bs: seq<Byte>): (r: string)
    ensures |r| == 3 * |bs|
  {
    if bs == [] then [] else Escape(bs[0]) + Escapes(bs[1..])
  }

  /** One character of encodeURIComponent's output. */
  function EncodeChar(c: char): (r: string)
    ensures 1 <= |r|
  {
    if Unreserved(c) then [c] else Escapes(Utf8(c))
  }

  /** encodeURIComponent. */
  function Encode(s: string): (r: string)
    ensures forall i :: 0 <= i < |r| ==> Unreserved(r[i]) || r[i] == '%'
  {
    if s == [] then []
    else
      EncodeCharAlphabet(s[0]);
      EncodeChar(s[0]) + Encode(s[1..])
  }

  lemma EncodeCharAlphabet(c: char)
    ensures forall i :: 0 <= i < |EncodeChar(c)| ==> Unreserved(EncodeChar(c)[i]) || EncodeChar(c)[i] == '%'
  {
    if !Unreserved(c) {
      EscapesAlphabet(Utf8(c));
    }
  }

  lemma {:induction false} EscapesAlphabet(bs: seq<Byte>)
    ensures forall i :: 0 <= i < |Escapes(bs)| ==> Unreserved(Escapes(bs)[i]) || Escapes(bs)[i] == '%'
  {
    if bs != [] {
      EscapesAlphabet(bs[1..]);
    }
  }

  // ---------------------------------------------------------------------
  // Decoding

  /** The octet of a `%HH` triplet starting at index i, if there is one. */
  function OctetAt(s: string, i: nat): (r: Option<Byte>)
  {
    if i + 3 <= |s| && s[i] == '%' && HexValue(s[i + 1]).Some? && HexValue(s[i + 2]).Some?
    then Some(16 * HexValue(s[i + 1]).value + HexValue(s[i + 2]).value)
    else None
  }

  /** A continuation octet 10xxxxxx at triplet index i, as its six payload bits. */
  function ContinuationAt(s: string, i: nat): (r: Option<int>)
    ensures r.Some? ==> 0 <= r.value < 64
  {
    match OctetAt(s, i)
    case Some(b) => if 0x80 <= b < 0xC0 then Some(b - 0x80) else None
    case None => None
  }

  /**
   * The character an escape run starting at the front of `s` stands for,
   * with the number of characters it spans; absent when the run is not the
   * shortest UTF-8 form of a scalar value (the URIError cases).
   */
  function DecodeEscape(s: string): (r: Option<(char, nat)>)
    ensures r.Some? ==> 3 <= r.value.1 <= |s|
  {
    match OctetAt(s, 0)
    case None => None
    case Some(b) =>
      if b < 0x80 then Some((b as char, 3))
      else if 0xC0 <= b < 0xE0 then
        match ContinuationAt(s, 3)
        case None => None
        case Some(x1) =>
          var n := (b - 0xC0) * 64 + x1;
          if n < 0x80 then None else Some((n as char, 6))
      else if 0xE0 <= b < 0xF0 then
        match (ContinuationAt(s, 3), ContinuationAt(s, 6))
        case (Some(x1), Some(x2)) =>
          var n := (b - 0xE0) * 4096 + x1 * 64 + x2;
          if n < 0x800 || (0xD800 <= n < 0xE000) then None else Some((n as char, 9))
        case _ => None
      else if 0xF0 <= b < 0xF8 then
        match (ContinuationAt(s, 3), ContinuationAt(s, 6), ContinuationAt(s, 9))
        case (Some(x1), Some(x2), Some(x3)) =>
          var n := (b - 0xF0) * 262144 + x1 * 4096 + x2 * 64 + x3;
          if n < 0x10000 || n > 0x10FFFF then None else Some((n as char, 12))
        case _ => None
      else None
  }

  /** decodeURIComponent: absent where the browser throws a URIError. */
  function Decode(s: string): (r: Option<string>)
    ensures r.Some? ==> |r.value| <= |s|
    ensures (forall i :: 0 <= i < |s| ==> s[i] != '%') ==> r == Some(s)
    decreases |s|
  {
    if s == [] then Some([])
    else if s[0] != '%' then
      assert (forall i :: 0 <= i < |s| ==> s[i] != '%') ==> forall i :: 0 <= i < |s[1..]| ==> s[1..][i] != '%';
      assert s == [s[0]] + s[1..];
      match Decode(s[1..])
      case None => None
      case Some(t) => Some([s[0]] + t)
    else
      match DecodeEscape(s)
      case None => None
      case Some((c, k)) =>
        match Decode(s[k..])
        case None => None
        case Some(t) => Some([c] + t)
  }

  // ---------------------------------------------------------------------
  // Round trip

  lemma OctetOfEscape(b: Byte, s: string, i: nat)
    requires i + 3 <= |s| && s[i..i + 3] == Escape(b)
    ensures OctetAt(s, i) == Some(b)
  {
    assert s[i] == '%' && s[i + 1] == HexDigit(b / 16) && s[i + 2] == HexDigit(b % 16);
    HexRoundTrip(b / 16);
    HexRoundTrip(b % 16);
  }

  /** The triplet of the k-th octet sits at 3 * k in the escape run. */
  lemma EscapesAt(bs: seq<Byte>, rest: string, k: nat)
    requires k < |bs|
    ensures var s := Escapes(bs) + rest; 3 * k + 3 <= |s| && s[3 * k..3 * k + 3] == Escape(bs[k])
  {
    if k > 0 {
      EscapesAt(bs[1..], rest, k - 1);
      assert Escapes(bs) + rest == Escape(bs[0]) + (Escapes(bs[1..]) + rest);
    }
  }

  lemma DecodeEscapeTwo(c: char, rest: string)
    requires 0x80 <= c as int < 0x800
    ensures DecodeEscape(Escapes(Utf8(c)) + rest) == Some((c, 6))
  {
    var bs, s := Utf8(c), Escapes(Utf8(c)) + rest;
    EscapesAt(bs, rest, 0);
    EscapesAt(bs, rest, 1);
    OctetOfEscape(bs[0], s, 0);
    OctetOfEscape(bs[1], s, 3);
  }

  lemma DecodeEscapeThree(c: char, rest: string)
    requires 0x800 <= c as int < 0x10000
    ensures DecodeEscape(Escapes(Utf8(c)) + rest) == Some((c, 9))
  {
    var bs, s := Utf8(c), Escapes(Utf8(c)) + rest;
    var n := c as int;
    var d0, d1, d2 := n / 4096, (n / 64) % 64, n % 64;
    SplitThree(n);
    assert bs == [0xE0 + d0, 0x80 + d1, 0x80 + d2];
    EscapesAt(bs, rest, 0);
    EscapesAt(bs, rest, 1);
    EscapesAt(bs, rest, 2);
    OctetOfEscape(bs[0], s, 0);
    OctetOfEscape(bs[1], s, 3);
    OctetOfEscape(bs[2], s, 6);
    assert ContinuationAt(s, 3) == Some(d1);
    assert ContinuationAt(s, 6) == Some(d2);
    ThreeOctets(s, 0xE0 + d0, d1, d2);
  }

  lemma SplitThree(n: int)
    requires 0x800 <= n < 0x10000
    ensures 0 <= n / 4096 < 16
    ensures (n / 4096) * 4096 + ((n / 64) % 64) * 64 + n % 64 == n
  {
  }

  lemma ThreeOctets(s: string, b: Byte, x1: int, x2: int)
    requires 0xE0 <= b < 0xF0
    requires OctetAt(s, 0) == Some(b) && ContinuationAt(s, 3) == Some(x1) && ContinuationAt(s, 6) == Some(x2)
    requires var n := (b - 0xE0) * 4096 + x1 * 64 + x2; 0x800 <= n && !(0xD800 <= n < 0xE000)
    ensures DecodeEscape(s) == Some((((b - 0xE0) * 4096 + x1 * 64 + x2) as char, 9))
  {
  }

  lemma DecodeEscapeFour(c: char, rest: string)
    requires 0x10000 <= c as int
    ensures DecodeEscape(Escapes(Utf8(c)) + rest) == Some((c, 12))
  {
    var bs, s := Utf8(c), Escapes(Utf8(c)) + rest;
    var n := c as int;
    var d0, d1, d2, d3 := n / 262144, (n / 4096) % 64, (n / 64) % 64, n % 64;
    SplitFour(n);
    assert bs == [0xF0 + d0, 0x80 + d1, 0x80 + d2, 0x80 + d3];
    EscapesAt(bs, rest, 0);
    EscapesAt(bs, rest, 1);
    EscapesAt(bs, rest, 2);
    EscapesAt(bs, rest, 3);
    OctetOfEscape(bs[0], s, 0);
    OctetOfEscape(bs[1], s, 3);
    OctetOfEscape(bs[2], s, 6);
    OctetOfEscape(bs[3], s, 9);
    assert ContinuationAt(s, 3) == Some(d1);
    assert ContinuationAt(s, 6) == Some(d2);
    assert ContinuationAt(s, 9) == Some(d3);
    FourOctets(s, 0xF0 + d0, d1, d2, d3);
  }

  lemma SplitFour(n: int)
    requires 0x10000 <= n <= 0x10FFFF
    ensures 0 <= n / 262144 <= 4
    ensures (n / 262144) * 262144 + ((n / 4096) % 64) * 4096 + ((n / 64) % 64) * 64 + n % 64 == n
  {
  }

  lemma FourOctets(s: string, b: Byte, x1: int, x2: int, x3: int)
    requires 0xF0 <= b < 0xF8
    requires OctetAt(s, 0) == Some(b) && ContinuationAt(s, 3) == Some(x1)
    requires ContinuationAt(s, 6) == Some(x2) && ContinuationAt(s, 9) == Some(x3)
    requires var n := (b - 0xF0) * 262144 + x1 * 4096 + x2 * 64 + x3; 0x10000 <= n <= 0x10FFFF
    ensures DecodeEscape(s) == Some((((b - 0xF0) * 262144 + x1 * 4096 + x2 * 64 + x3) as char, 12))
  {
  }

  /** Decoding the escapes of one character gives back that character and nothing more. */
  lemma DecodeEscapeOfChar(c: char, rest: string)
    requires !Unreserved(c)
    ensures DecodeEscape(EncodeChar(c) + rest) == Some((c, |EncodeChar(c)|))
  {
    var n := c as int;
    if n < 0x80 {
      var s := EncodeChar(c) + rest;
      EscapesAt(Utf8(c), rest, 0);
      OctetOfEscape(n, s, 0);
    } else if n < 0x800 {
      DecodeEscapeTwo(c, rest);
    } else if n < 0x10000 {
      DecodeEscapeThree(c, rest);
    } else {
      DecodeEscapeFour(c, rest);
    }
  }

  /** decodeURIComponent undoes encodeURIComponent, for every string. */
  lemma {:induction false} DecodeEncode(s: string)
    ensures Decode(Encode(s)) == Some(s)
    decreases |s|
  {
    if s != [] {
      var e, rest := EncodeChar(s[0]), Encode(s[1..]);
      DecodeEncode(s[1..]);
      assert Encode(s) == e + rest;
      if Unreserved(s[0]) {
        assert (e + rest)[1..] == rest;
      } else {
        DecodeEscapeOfChar(s[0], rest);
        assert (e + rest)[|e|..] == rest;
        assert (e + rest)[0] == '%' by {
          assert e == Escape(Utf8(s[0])[0]) + Escapes(Utf8(s[0])[1..]);
        }
      }
      assert s == [s[0]] + s[1..];
    }
  }

  /** Only unreserved characters and escapes come out, so never a `/`: an encoded value is one path segment. */
  lemma EncodeHasNoSlash(s: string)
    ensures '/' !in Encode(s)
  {
  }
}

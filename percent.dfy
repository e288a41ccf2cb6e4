/**
 * `encodeURIComponent` and `decodeURIComponent`: percent-encoding of the
 * UTF-8 bytes of every character outside the unreserved set, as in
 * section 2.1 of RFC 3986 (upper-case hexadecimal digits on output, either
 * case on input). Decoding fails (JavaScript's `URIError`) on a malformed
 * escape or on bytes that are not the UTF-8 encoding of a character.
 */
module Percent {
  import opened Wrappers

  /** The characters `encodeURIComponent` leaves as they are. */
  predicate Unescaped(c: char)
  {
    'A' <= c <= 'Z' || 'a' <= c <= 'z' || '0' <= c <= '9'
    || c == '-' || c == '_' || c == '.' || c == '!' || c == '~' || c == '*' || c == '\'' || c == '(' || c == ')'
  }

  /** The UTF-8 encoding of one character. */
  function Utf8(c: char): (bytes: seq<int>)
    ensures 1 <= |bytes| <= 4
    ensures forall i :: 0 <= i < |bytes| ==> 0 <= bytes[i] < 256
  {
    var k := c as int;
    if k < 0x80 then [k]
    else if k < 0x800 then [0xC0 + k / 64, 0x80 + k % 64]
    else if k < 0x10000 then [0xE0 + k / 4096, 0x80 + (k / 64) % 64, 0x80 + k % 64]
    else [0xF0 + k / 262144, 0x80 + (k / 4096) % 64, 0x80 + (k / 64) % 64, 0x80 + k % 64]
  }

  function HexDigit(d: int): (c: char)
    requires 0 <= d < 16
  {
    "0123456789ABCDEF"[d]
  }

  /** The value of a hexadecimal digit of either case. */
  function HexValue(c: char): (r: Option<int>)
    ensures r.Some? ==> 0 <= r.value < 16
  {
    if '0' <= c <= '9' then Some(c as int - '0' as int)
    else if 'A' <= c <= 'F' then Some(c as int - 'A' as int + 10)
    else if 'a' <= c <= 'f' then Some(c as int - 'a' as int + 10)
    else None
  }

  /** `%XY` for one byte. */
  function Escape(b: int): (s: string)
    requires 0 <= b < 256
    ensures |s| == 3 && s[0] == '%'
  {
    ['%', HexDigit(b / 16), HexDigit(b % 16)]
  }

  function EscapeAll(bytes: seq<int>): (s: string)
    requires forall i :: 0 <= i < |bytes| ==> 0 <= bytes[i] < 256
    ensures |s| == 3 * |bytes|
  {
    if bytes == [] then "" else Escape(bytes[0]) + EscapeAll(bytes[1..])
  }

  function EncodeChar(c: char): (s: string)
    ensures |s| >= 1
  {
    if Unescaped(c) then [c] else EscapeAll(Utf8(c))
  }

  /**
   * `encodeURIComponent(s)`: never shorter than its input, and equal to it
   * exactly when every character is one that is left as it is.
   */
  function Encode(s: string): (r: string)
    ensures |r| >= |s|
    ensures r == s <==> forall i :: 0 <= i < |s| ==> Unescaped(s[i])
    decreases |s|
  {
    if s == [] then ""
    else
      var head, rest := EncodeChar(s[0]), Encode(s[1..]);
      assert s == [s[0]] + s[1..];
      assert !Unescaped(s[0]) ==> |head| >= 3;
      assert (forall i :: 0 <= i < |s| ==> Unescaped(s[i])) <==>
             Unescaped(s[0]) && forall i :: 0 <= i < |s[1..]| ==> Unescaped(s[1..][i]);
      assert Unescaped(s[0]) ==> (head + rest == s <==> rest == s[1..]) by {
        if Unescaped(s[0]) && head + rest == s {
          assert (head + rest)[1..] == rest;
        }
      }
      head + rest
  }

  /** The byte written as `%XY` at position `i`, if there is one. */
  function EscapedByte(s: string, i: nat): (r: Option<int>)
    ensures r.Some? ==> 0 <= r.value < 256
  {
    if i + 3 <= |s| && s[i] == '%' then
      match (HexValue(s[i + 1]), HexValue(s[i + 2]))
      case (Some(h), Some(l)) => Some(16 * h + l)
      case _ => None
    else None
  }

  /** The low six bits of the `k`-th escaped byte, if it is a UTF-8 continuation byte. */
  function Continuation(s: string, k: nat): (r: Option<int>)
    ensures r.Some? ==> 0 <= r.value < 64
  {
    match EscapedByte(s, 3 * k)
    case Some(b) => if 0x80 <= b < 0xC0 then Some(b - 0x80) else None
    case None => None
  }

  /**
   * Decodes the character at the start of `s` and says how many characters
   * of `s` it took; `None` is a `URIError`. An escaped lead byte announces
   * how many continuation bytes follow; overlong forms, surrogates and
   * values above U+10FFFF are refused.
   */
  function DecodeOne(s: string): (r: Option<(char, nat)>)
    requires |s| > 0
    ensures r.Some? ==> 1 <= r.value.1 <= |s|
  {
    if s[0] != '%' then Some((s[0], 1))
    else match EscapedByte(s, 0)
      case None => None
      case Some(b0) =>
        if b0 < 0x80 then Some((b0 as char, 3))
        else if 0xC0 <= b0 < 0xE0 then
          match Continuation(s, 1)
          case Some(c1) =>
            var k := (b0 - 0xC0) * 64 + c1;
            if k < 0x80 then None else Some((k as char, 6))
          case None => None
        else if 0xE0 <= b0 < 0xF0 then
          match (Continuation(s, 1), Continuation(s, 2))
          case (Some(c1), Some(c2)) =>
            var k := (b0 - 0xE0) * 4096 + c1 * 64 + c2;
            if k < 0x800 || (0xD800 <= k < 0xE000) then None else Some((k as char, 9))
          case _ => None
        else if 0xF0 <= b0 < 0xF8 then
          match (Continuation(s, 1), Continuation(s, 2), Continuation(s, 3))
          case (Some(c1), Some(c2), Some(c3)) =>
            var k := (b0 - 0xF0) * 262144 + c1 * 4096 + c2 * 64 + c3;
            if k < 0x10000 || k > 0x10FFFF then None else Some((k as char, 12))
          case _ => None
        else None
  }

  /**
   * `decodeURIComponent(s)`; `None` is a `URIError`. Never longer than its
   * input, and text without `%` decodes to itself (so `+` stays `+`).
   */
  function Decode(s: string): (r: Option<string>)
    ensures r.Some? ==> |r.value| <= |s|
    ensures '%' !in s ==> r == Some(s)
    decreases |s|
  {
    if s == [] then Some("")
    else match DecodeOne(s)
      case None => None
      case Some((c, n)) =>
        assert '%' !in s ==> n == 1 && c == s[0] && '%' !in s[1..] && s == [s[0]] + s[1..];
        match Decode(s[n..])
        case None => None
        case Some(rest) => Some([c] + rest)
  }

  // ---------------------------------------------------------------------------
  // round trip
  // ---------------------------------------------------------------------------

  lemma HexRoundTrip(b: int)
    requires 0 <= b < 256
    ensures HexValue(HexDigit(b / 16)) == Some(b / 16)
    ensures HexValue(HexDigit(b % 16)) == Some(b % 16)
  {
  }

  /** The escape of byte `b` sits at position `i` of `s`. */
  lemma ReadEscape(s: string, i: nat, b: int)
    requires 0 <= b < 256 && i + 3 <= |s| && s[i..i + 3] == Escape(b)
    ensures EscapedByte(s, i) == Some(b)
  {
    HexRoundTrip(b);
    assert s[i] == '%' && s[i + 1] == HexDigit(b / 16) && s[i + 2] == HexDigit(b % 16);
  }

  lemma EscapeAllAt(bytes: seq<int>, t: string, k: nat)
    requires forall i :: 0 <= i < |bytes| ==> 0 <= bytes[i] < 256
    requires k < |bytes|
    ensures (EscapeAll(bytes) + t)[3 * k..3 * k + 3] == Escape(bytes[k])
    decreases k
  {
    if k > 0 {
      EscapeAllAt(bytes[1..], t, k - 1);
      assert EscapeAll(bytes) + t == Escape(bytes[0]) + (EscapeAll(bytes[1..]) + t);
    }
  }

  /** Reading back the escaped bytes of `c` yields `c` and consumes exactly its escapes. */
  lemma DecodeEncodeChar(c: char, t: string)
    ensures DecodeOne(EncodeChar(c) + t) == Some((c, |EncodeChar(c)|))
  {
    if Unescaped(c) {
      assert (EncodeChar(c) + t)[0] == c != '%';
    } else {
      DecodeEscapedChar(c, t);
    }
  }

  /** The escapes of a character's UTF-8 bytes decode to it, one width at a time. */
  lemma DecodeEscapedChar(c: char, t: string)
    requires !Unescaped(c)
    ensures DecodeOne(EncodeChar(c) + t) == Some((c, 3 * |Utf8(c)|))
  {
    var k := c as int;
    if k < 0x80 {
      DecodeOneByte(c, t);
    } else if k < 0x800 {
      DecodeTwo(c, t);
    } else if k < 0x10000 {
      DecodeThree(c, t);
    } else {
      DecodeFour(c, t);
    }
  }

  /** The UTF-8 bytes of `c` by width: a lead byte and the base-64 digits of `c`. */
  lemma Utf8Shape(c: char)
    ensures var k := c as int;
      && (0x80 <= k < 0x800 ==> Utf8(c) == [0xC0 + k / 64, 0x80 + k % 64])
      && (0x800 <= k < 0x10000 ==> Utf8(c) == [0xE0 + k / 4096, 0x80 + (k / 64) % 64, 0x80 + k % 64] && k / 4096 < 16)
      && (0x10000 <= k ==> Utf8(c) == [0xF0 + k / 262144, 0x80 + (k / 4096) % 64, 0x80 + (k / 64) % 64, 0x80 + k % 64] && k / 262144 < 8)
  {
  }

  /** The `j`-th escape of an encoded character holds its `j`-th UTF-8 byte. */
  lemma EscapedByteAt(c: char, t: string, j: nat)
    requires !Unescaped(c) && j < |Utf8(c)|
    ensures EscapedByte(EncodeChar(c) + t, 3 * j) == Some(Utf8(c)[j])
  {
    EscapeAllAt(Utf8(c), t, j);
    ReadEscape(EncodeChar(c) + t, 3 * j, Utf8(c)[j]);
  }

  lemma DecodeOneByte(c: char, t: string)
    requires !Unescaped(c) && c as int < 0x80
    ensures DecodeOne(EncodeChar(c) + t) == Some((c, 3)) && |Utf8(c)| == 1
  {
    EscapedByteAt(c, t, 0);
  }

  lemma DecodeTwo(c: char, t: string)
    requires 0x80 <= c as int < 0x800
    ensures DecodeOne(EncodeChar(c) + t) == Some((c, 6)) && |Utf8(c)| == 2
  {
    var s, k := EncodeChar(c) + t, c as int;
    assert !Unescaped(c);
    Utf8Shape(c);
    EscapedByteAt(c, t, 0);
    EscapedByteAt(c, t, 1);
    ContinuationOf(s, 1, k % 64);
  }

  lemma DecodeThree(c: char, t: string)
    requires 0x800 <= c as int < 0x10000
    ensures DecodeOne(EncodeChar(c) + t) == Some((c, 9)) && |Utf8(c)| == 3
  {
    var s, k := EncodeChar(c) + t, c as int;
    assert !Unescaped(c);
    var b0, c1, c2 := k / 4096, (k / 64) % 64, k % 64;
    Utf8Shape(c);
    EscapedByteAt(c, t, 0);
    EscapedByteAt(c, t, 1);
    EscapedByteAt(c, t, 2);
    ContinuationOf(s, 1, c1);
    ContinuationOf(s, 2, c2);
    Base64Digits(k);
    assert b0 * 4096 + c1 * 64 + c2 == k;
    DecodeThreeDigits(s, b0, c1, c2);
  }

  /** An escaped continuation byte carries its low six bits. */
  lemma ContinuationOf(s: string, j: nat, v: int)
    requires 0 <= v < 64 && EscapedByte(s, 3 * j) == Some(0x80 + v)
    ensures Continuation(s, j) == Some(v)
  {
  }

  /** A three-byte lead followed by two continuations decodes to the character they spell. */
  lemma DecodeThreeDigits(s: string, b0: int, c1: int, c2: int)
    requires 0 <= b0 < 16 && 0 <= c1 < 64 && 0 <= c2 < 64 && |s| > 0
    requires EscapedByte(s, 0) == Some(0xE0 + b0) && Continuation(s, 1) == Some(c1) && Continuation(s, 2) == Some(c2)
    requires var k := b0 * 4096 + c1 * 64 + c2; 0x800 <= k && !(0xD800 <= k < 0xE000)
    ensures DecodeOne(s) == Some(((b0 * 4096 + c1 * 64 + c2) as char, 9))
  {
  }

  /** Writing `k` in base 64: the digits the UTF-8 encoder extracts recombine to `k`. */
  lemma Base64Digits(k: nat)
    ensures (k / 4096) * 4096 + ((k / 64) % 64) * 64 + k % 64 == k
    ensures (k / 262144) * 262144 + ((k / 4096) % 64) * 4096 + ((k / 64) % 64) * 64 + k % 64 == k
  {
    var a := k / 64;
    var b := a / 64;
    assert k == a * 64 + k % 64;
    assert a == b * 64 + a % 64;
    assert b == k / 4096;
    assert b / 64 == k / 262144;
  }

  lemma DecodeFour(c: char, t: string)
    requires 0x10000 <= c as int
    ensures DecodeOne(EncodeChar(c) + t) == Some((c, 12)) && |Utf8(c)| == 4
  {
    var s, k := EncodeChar(c) + t, c as int;
    assert !Unescaped(c);
    var b0, c1, c2, c3 := k / 262144, (k / 4096) % 64, (k / 64) % 64, k % 64;
    Utf8Shape(c);
    EscapedByteAt(c, t, 0);
    EscapedByteAt(c, t, 1);
    EscapedByteAt(c, t, 2);
    EscapedByteAt(c, t, 3);
    ContinuationOf(s, 1, c1);
    ContinuationOf(s, 2, c2);
    ContinuationOf(s, 3, c3);
    Base64Digits(k);
    assert b0 * 262144 + c1 * 4096 + c2 * 64 + c3 == k;
    DecodeFourDigits(s, b0, c1, c2, c3);
  }

  /** A four-byte lead followed by three continuations decodes to the character they spell. */
  lemma DecodeFourDigits(s: string, b0: int, c1: int, c2: int, c3: int)
    requires 0 <= b0 < 8 && 0 <= c1 < 64 && 0 <= c2 < 64 && 0 <= c3 < 64 && |s| > 0
    requires EscapedByte(s, 0) == Some(0xF0 + b0)
    requires Continuation(s, 1) == Some(c1) && Continuation(s, 2) == Some(c2) && Continuation(s, 3) == Some(c3)
    requires var k := b0 * 262144 + c1 * 4096 + c2 * 64 + c3; 0x10000 <= k <= 0x10FFFF
    ensures DecodeOne(s) == Some(((b0 * 262144 + c1 * 4096 + c2 * 64 + c3) as char, 12))
  {
  }

  /** `decodeURIComponent(encodeURIComponent(s)) === s`. */
  lemma {:induction false} DecodeEncode(s: string)
    ensures Decode(Encode(s)) == Some(s)
    decreases |s|
  {
    if s != [] {
      var c, rest := s[0], s[1..];
      assert s == [c] + rest;
      var e, t := EncodeChar(c), Encode(rest);
      var enc := e + t;
      assert enc[|e|..] == t;
      assert Encode(s) == enc;
      DecodeEncodeChar(c, t);
      DecodeEncode(rest);
      assert Decode(enc) == Some([c] + rest);
    }
  }

  /** Encoded text consists of unescaped characters, `%` and upper-case hexadecimal digits only. */
  predicate EncodedChar(c: char)
  {
    Unescaped(c) || c == '%'
  }

  lemma {:induction false} EncodeAlphabet(s: string)
    ensures forall i :: 0 <= i < |Encode(s)| ==> EncodedChar(Encode(s)[i])
    decreases |s|
  {
    if s != [] {
      EncodeAlphabet(s[1..]);
      var c := s[0];
      if !Unescaped(c) {
        EscapeAllAlphabet(Utf8(c));
      }
    }
  }

  lemma {:induction false} EscapeAllAlphabet(bytes: seq<int>)
    requires forall i :: 0 <= i < |bytes| ==> 0 <= bytes[i] < 256
    ensures forall i :: 0 <= i < |EscapeAll(bytes)| ==> EncodedChar(EscapeAll(bytes)[i])
    decreases |bytes|
  {
    if bytes != [] {
      EscapeAllAlphabet(bytes[1..]);
    }
  }

  /** Encoding never produces the separators the URI and link grammars split on. */
  lemma EncodeHasNoSeparators(s: string)
    ensures ':' !in Encode(s) && '/' !in Encode(s) && '?' !in Encode(s)
  {
    EncodeAlphabet(s);
  }

  /** Text made of unescaped characters only is its own encoding. */
  lemma {:induction false} EncodeUnescapedText(s: string)
    requires forall i :: 0 <= i < |s| ==> Unescaped(s[i])
    ensures Encode(s) == s
    decreases |s|
  {
    if s != [] {
      EncodeUnescapedText(s[1..]);
      assert [s[0]] + s[1..] == s;
    }
  }

  /** Only the empty string encodes to the empty string. */
  lemma EncodeEmpty(s: string)
    ensures Encode(s) == "" <==> s == ""
  {
  }
}

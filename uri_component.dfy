/**
 * `encodeURIComponent` as ECMA-262 (section 19.2.6.5, the Encode
 * operation) defines it for a string of Unicode scalar values: characters
 * outside the unreserved set are written as the UTF-8 bytes of their code
 * point, each as `%` and two upper-case hexadecimal digits (percent-encoding
 * as in section 2.1 of RFC 3986). `Decode` is the receiving side's inverse,
 * used here only to state that the encoding loses nothing.
 */
module UriComponent {
  import opened Wrappers

  /** The characters `encodeURIComponent` leaves unescaped. */
  predicate Unreserved(c: char) {
    || ('A' <= c <= 'Z') || ('a' <= c <= 'z') || ('0' <= c <= '9')
    || c == '-' || c == '_' || c == '.' || c == '!' || c == '~'
    || c == '*' || c == '\'' || c == '(' || c == ')'
  }

  predicate IsByte(b: int) {
    0 <= b < 256
  }

  /** An upper-case hexadecimal digit for a nibble. */
  function HexDigit(n: int): (c: char)
    requires 0 <= n < 16
    ensures IsHexDigit(c)
  {
    if n < 10 then ('0' as int + n) as char else ('A' as int + n - 10) as char
  }

  predicate IsHexDigit(c: char) {
    ('0' <= c <= '9') || ('A' <= c <= 'F')
  }

  /** The value of a hexadecimal digit; lower case is accepted too. */
  function HexValue(c: char): Option<int> {
    if '0' <= c <= '9' then Some(c as int - '0' as int)
    else if 'A' <= c <= 'F' then Some(c as int - 'A' as int + 10)
    else if 'a' <= c <= 'f' then Some(c as int - 'a' as int + 10)
    else None
  }

  /** The UTF-8 encoding of a Unicode scalar value. */
  function Utf8(cp: int): (bytes: seq<int>)
    requires 0 <= cp < 0x11_0000
    ensures 1 <= |bytes| <= 4
    ensures forall i :: 0 <= i < |bytes| ==> IsByte(bytes[i])
  {
    if cp < 0x80 then [cp]
    else if cp < 0x800 then [0xC0 + cp / 64, 0x80 + cp % 64]
    else if cp < 0x1_0000 then [0xE0 + cp / 4096, 0x80 + (cp / 64) % 64, 0x80 + cp % 64]
    else [0xF0 + cp / 262144, 0x80 + (cp / 4096) % 64, 0x80 + (cp / 64) % 64, 0x80 + cp % 64]
  }

  /** `%XY` for one byte. */
  function PercentByte(b: int): string
    requires IsByte(b)
  {
    ['%', HexDigit(b / 16), HexDigit(b % 16)]
  }

  function PercentBytes(bytes: seq<int>): string
    requires forall i :: 0 <= i < |bytes| ==> IsByte(bytes[i])
  {
    if bytes == [] then [] else PercentByte(bytes[0]) + PercentBytes(bytes[1..])
  }

  /** One character: itself when unreserved, otherwise its UTF-8 bytes as `%XY` triples. */
  function EncodeChar(c: char): (r: string)
    ensures Unreserved(c) ==> r == [c]
    ensures !Unreserved(c) ==> |r| % 3 == 0 && 3 <= |r| <= 12 && r[0] == '%'
  {
    if Unreserved(c) then [c]
    else
      PercentBytesEscaped(Utf8(c as int));
      PercentBytes(Utf8(c as int))
  }

  /** `encodeURIComponent(s)`: never shorter than the text, and empty only for the empty text. */
  function EncodeURIComponent(s: string): (r: string)
    ensures |s| <= |r| <= 12 * |s|
  {
    if s == [] then [] else EncodeChar(s[0]) + EncodeURIComponent(s[1..])
  }

  /** What may appear in an encoded component: no `&`, `=`, `#`, `?` or space survives. */
  predicate Escaped(c: char) {
    Unreserved(c) || c == '%' || IsHexDigit(c)
  }

  lemma {:induction false} PercentBytesEscaped(bytes: seq<int>)
    requires forall i :: 0 <= i < |bytes| ==> IsByte(bytes[i])
    ensures forall k :: 0 <= k < |PercentBytes(bytes)| ==> Escaped(PercentBytes(bytes)[k])
    ensures |PercentBytes(bytes)| == 3 * |bytes|
  {
    if bytes != [] {
      PercentBytesEscaped(bytes[1..]);
    }
  }

  /** Every character of an encoded component is unreserved, `%` or a hexadecimal digit. */
  lemma {:induction false} EncodedIsEscaped(s: string)
    ensures forall k :: 0 <= k < |EncodeURIComponent(s)| ==> Escaped(EncodeURIComponent(s)[k])
    ensures |EncodeURIComponent(s)| >= |s|
  {
    if s != [] {
      EncodedIsEscaped(s[1..]);
      if !Unreserved(s[0]) {
        PercentBytesEscaped(Utf8(s[0] as int));
      }
    }
  }

  /** A string of unreserved characters is its own encoding. */
  lemma {:induction false} EncodeUnreserved(s: string)
    requires forall k :: 0 <= k < |s| ==> Unreserved(s[k])
    ensures EncodeURIComponent(s) == s
  {
    if s != [] {
      EncodeUnreserved(s[1..]);
      assert s == [s[0]] + s[1..];
    }
  }

  /** Encoding works character by character. */
  lemma {:induction false} EncodeConcat(a: string, b: string)
    ensures EncodeURIComponent(a + b) == EncodeURIComponent(a) + EncodeURIComponent(b)
  {
    if a == [] {
      assert a + b == b;
    } else {
      assert (a + b)[1..] == a[1..] + b;
      EncodeConcat(a[1..], b);
    }
  }

  // The inverse.

  /** The byte of a leading `%XY`. */
  function ReadByte(s: string): (r: Option<int>)
    ensures r.Some? ==> |s| >= 3 && IsByte(r.value)
  {
    if |s| >= 3 && s[0] == '%' && HexValue(s[1]).Some? && HexValue(s[2]).Some? then
      Some(16 * HexValue(s[1]).value + HexValue(s[2]).value)
    else None
  }

  /** How many bytes a UTF-8 sequence with this lead byte has; 0 when it is no lead byte. */
  function SequenceLength(b: int): nat {
    if b < 0x80 then 1
    else if 0xC0 <= b < 0xE0 then 2
    else if 0xE0 <= b < 0xF0 then 3
    else if 0xF0 <= b < 0xF8 then 4
    else 0
  }

  /** The code-point bits a lead byte carries. */
  function LeadBits(b: int, n: nat): int {
    if n == 1 then b else if n == 2 then b - 0xC0 else if n == 3 then b - 0xE0 else b - 0xF0
  }

  /** Reads `k` percent-encoded continuation bytes, shifting their bits into `acc`. */
  function ReadContinuations(s: string, k: nat, acc: int): (r: Option<(int, string)>)
    ensures r.Some? ==> |r.value.1| <= |s|
  {
    if k == 0 then Some((acc, s))
    else match ReadByte(s)
      case Some(b) =>
        if 0x80 <= b < 0xC0 then ReadContinuations(s[3..], k - 1, acc * 64 + (b - 0x80)) else None
      case None => None
  }

  predicate IsScalarValue(cp: int) {
    (0 <= cp < 0xD800) || (0xE000 <= cp < 0x11_0000)
  }

  /** Decodes the first character of `s` and returns it with what follows. */
  function DecodeChar(s: string): (r: Option<(char, string)>)
    ensures r.Some? ==> |r.value.1| < |s|
  {
    if s == [] then None
    else if s[0] != '%' then Some((s[0], s[1..]))
    else match ReadByte(s)
      case None => None
      case Some(b) =>
        var n := SequenceLength(b);
        if n == 0 then None
        else match ReadContinuations(s[3..], n - 1, LeadBits(b, n))
          case None => None
          case Some((cp, rest)) => if IsScalarValue(cp) then Some((cp as char, rest)) else None
  }

  /** The receiving side of `encodeURIComponent`. */
  function Decode(s: string): Option<string>
    decreases |s|
  {
    if s == [] then Some([])
    else match DecodeChar(s)
      case None => None
      case Some((c, rest)) =>
        match Decode(rest)
        case None => None
        case Some(t) => Some([c] + t)
  }

  lemma HexRoundTrip(b: int)
    requires IsByte(b)
    ensures HexValue(HexDigit(b / 16)) == Some(b / 16)
    ensures HexValue(HexDigit(b % 16)) == Some(b % 16)
  {
  }

  lemma ReadPercentByte(b: int, rest: string)
    requires IsByte(b)
    ensures ReadByte(PercentByte(b) + rest) == Some(b)
    ensures (PercentByte(b) + rest)[3..] == rest
  {
    HexRoundTrip(b);
    var s := PercentByte(b) + rest;
    assert s[0] == '%' && s[1] == HexDigit(b / 16) && s[2] == HexDigit(b % 16);
  }

  /** Reading back the continuation bytes of an encoding rebuilds the code point. */
  lemma {:induction false} ReadContinuationsOf(bytes: seq<int>, acc: int, rest: string)
    requires forall i :: 0 <= i < |bytes| ==> 0x80 <= bytes[i] < 0xC0
    ensures ReadContinuations(PercentBytes(bytes) + rest, |bytes|, acc) == Some((Shifted(bytes, acc), rest))
  {
    if bytes == [] {
      assert PercentBytes(bytes) + rest == rest;
    } else {
      var s := PercentBytes(bytes) + rest;
      assert s == PercentByte(bytes[0]) + (PercentBytes(bytes[1..]) + rest);
      ReadPercentByte(bytes[0], PercentBytes(bytes[1..]) + rest);
      ReadContinuationsOf(bytes[1..], acc * 64 + (bytes[0] - 0x80), rest);
    }
  }

  /** `acc` with the six low bits of each continuation byte shifted in. */
  function Shifted(bytes: seq<int>, acc: int): int {
    if bytes == [] then acc else Shifted(bytes[1..], acc * 64 + (bytes[0] - 0x80))
  }

  /** One encoded character decodes to that character. */
  lemma DecodeEncodeChar(c: char, rest: string)
    ensures DecodeChar(EncodeChar(c) + rest) == Some((c, rest))
  {
    if !Unreserved(c) {
      var cp := c as int;
      var bytes := Utf8(cp);
      var s := EncodeChar(c) + rest;
      assert s == PercentByte(bytes[0]) + (PercentBytes(bytes[1..]) + rest);
      ReadPercentByte(bytes[0], PercentBytes(bytes[1..]) + rest);
      assert s[0] == '%' && s[3..] == PercentBytes(bytes[1..]) + rest;
      var n := SequenceLength(bytes[0]);
      Utf8Lead(cp);
      assert n == |bytes| && n - 1 == |bytes[1..]|;
      ReadContinuationsOf(bytes[1..], LeadBits(bytes[0], n), rest);
      assert ReadContinuations(s[3..], n - 1, LeadBits(bytes[0], n)) == Some((cp, rest));
    }
  }

  /** The lead byte announces the length, and the bits reassemble the code point. */
  lemma Utf8Lead(cp: int)
    requires IsScalarValue(cp)
    ensures var bytes := Utf8(cp);
      && SequenceLength(bytes[0]) == |bytes|
      && (forall i :: 1 <= i < |bytes| ==> 0x80 <= bytes[i] < 0xC0)
      && Shifted(bytes[1..], LeadBits(bytes[0], |bytes|)) == cp
  {
    if cp < 0x80 {
    } else if cp < 0x800 {
      Utf8Lead2(cp);
    } else if cp < 0x1_0000 {
      Utf8Lead3(cp);
    } else {
      Utf8Lead4(cp);
    }
  }

  /** Dividing by 64 twice or three times is dividing by 4096 or 262144. */
  lemma DivDiv(x: int)
    requires x >= 0
    ensures (x / 64) / 64 == x / 4096
    ensures (x / 4096) / 64 == x / 262144
  {
  }

  lemma Utf8Lead2(cp: int)
    requires 0x80 <= cp < 0x800
    ensures SequenceLength(0xC0 + cp / 64) == 2
    ensures Shifted([0x80 + cp % 64], cp / 64) == cp
  {
    assert (cp / 64) * 64 + cp % 64 == cp;
  }

  lemma Utf8Lead3(cp: int)
    requires 0x800 <= cp < 0x1_0000
    ensures SequenceLength(0xE0 + cp / 4096) == 3
    ensures Shifted([0x80 + (cp / 64) % 64, 0x80 + cp % 64], cp / 4096) == cp
  {
    var b1, b2 := 0x80 + (cp / 64) % 64, 0x80 + cp % 64;
    DivDiv(cp);
    assert (cp / 4096) * 64 + (cp / 64) % 64 == cp / 64;
    assert (cp / 64) * 64 + cp % 64 == cp;
    assert Shifted([b2], cp / 64) == cp;
    assert Shifted([b1, b2], cp / 4096) == Shifted([b2], cp / 64);
  }

  lemma Utf8Lead4(cp: int)
    requires 0x1_0000 <= cp < 0x11_0000
    ensures SequenceLength(0xF0 + cp / 262144) == 4
    ensures Shifted([0x80 + (cp / 4096) % 64, 0x80 + (cp / 64) % 64, 0x80 + cp % 64], cp / 262144) == cp
  {
    var b1, b2, b3 := 0x80 + (cp / 4096) % 64, 0x80 + (cp / 64) % 64, 0x80 + cp % 64;
    DivDiv(cp);
    assert (cp / 262144) * 64 + (cp / 4096) % 64 == cp / 4096;
    assert (cp / 4096) * 64 + (cp / 64) % 64 == cp / 64;
    assert (cp / 64) * 64 + cp % 64 == cp;
    assert Shifted([b3], cp / 64) == cp;
    assert Shifted([b2, b3], cp / 4096) == Shifted([b3], cp / 64);
    assert Shifted([b1, b2, b3], cp / 262144) == Shifted([b2, b3], cp / 4096);
  }

  /** Decoding an encoded component gives back the original text. */
  lemma {:induction false} DecodeEncode(s: string)
    ensures Decode(EncodeURIComponent(s)) == Some(s)
  {
    if s != [] {
      DecodeEncodeChar(s[0], EncodeURIComponent(s[1..]));
      DecodeEncode(s[1..]);
      assert [s[0]] + s[1..] == s;
    }
  }
}

/**
  One path segment, percent-encoded: `segment` in crates/kaas-ui-connect/src/client.rs and `encode`
  in crates/kaas-ui-serde/src/subjects.rs. Sections 2.1 and 2.3 of RFC 3986 define the alphabet.
*/
module PercentEncoding {
  import opened Text

  type Byte = b: int | 0 <= b < 256

  // ----- the bytes of a Rust string -----

  /** UTF-8 of one scalar value. */
  function EncodeChar(c: char): (bytes: seq<Byte>)
    ensures bytes != []
  {
    var n := c as int;
    if n < 0x80 then [n]
    else if n < 0x800 then [0xC0 + n / 0x40, 0x80 + n % 0x40]
    else if n < 0x10000 then [0xE0 + n / 0x1000, 0x80 + n / 0x40 % 0x40, 0x80 + n % 0x40]
    else [0xF0 + n / 0x40000, 0x80 + n / 0x1000 % 0x40, 0x80 + n / 0x40 % 0x40, 0x80 + n % 0x40]
  }

  /** `str::bytes`. */
  function Utf8(s: string): seq<Byte> {
    if s == [] then [] else EncodeChar(s[0]) + Utf8(s[1..])
  }

  /** The code point the leading bytes spell, and how many bytes it took. */
  function LeadingCodePoint(bytes: seq<Byte>): (int, nat)
    requires bytes != []
  {
    var b := bytes[0];
    if b < 0x80 then (b, 1)
    else if b < 0xE0 then ((b - 0xC0) * 0x40 + Low(bytes, 1), 2)
    else if b < 0xF0 then ((b - 0xE0) * 0x1000 + Low(bytes, 1) * 0x40 + Low(bytes, 2), 3)
    else ((b - 0xF0) * 0x40000 + Low(bytes, 1) * 0x1000 + Low(bytes, 2) * 0x40 + Low(bytes, 3), 4)
  }

  /** The six payload bits of a continuation byte. */
  function Low(bytes: seq<Byte>, i: nat): int {
    if i < |bytes| then (bytes[i] as int) - 0x80 else 0
  }

  lemma NestedDivision(n: nat)
    ensures n / 0x1000 == n / 0x40 / 0x40
    ensures n / 0x40000 == n / 0x1000 / 0x40
  {
  }

  lemma Digit64(n: nat)
    ensures n == n / 0x40 * 0x40 + n % 0x40
  {
  }

  /** The six-bit digits of a number, put back together. */
  lemma SixBitDigits(n: nat)
    ensures n == n / 0x40 * 0x40 + n % 0x40
    ensures n == n / 0x1000 * 0x1000 + n / 0x40 % 0x40 * 0x40 + n % 0x40
    ensures n == n / 0x40000 * 0x40000 + n / 0x1000 % 0x40 * 0x1000 + n / 0x40 % 0x40 * 0x40 + n % 0x40
  {
    NestedDivision(n);
    Digit64(n);
    Digit64(n / 0x40);
    Digit64(n / 0x1000);
  }

  lemma LeadingCodePointIsLocal(bytes: seq<Byte>, rest: seq<Byte>)
    requires bytes != []
    requires |bytes| == if bytes[0] < 0x80 then 1 else if bytes[0] < 0xE0 then 2 else if bytes[0] < 0xF0 then 3 else 4
    ensures LeadingCodePoint(bytes + rest) == LeadingCodePoint(bytes)
  {
    assert forall i | 0 <= i < |bytes| :: (bytes + rest)[i] == bytes[i];
  }

  lemma LeadingCharIsRecovered(c: char, rest: seq<Byte>)
    ensures LeadingCodePoint(EncodeChar(c) + rest) == (c as int, |EncodeChar(c)|)
  {
    SixBitDigits(c as int);
    LeadingCodePointIsLocal(EncodeChar(c), rest);
  }

  /** No two strings share their bytes. */
  lemma {:induction false} Utf8Injective(s: string, t: string)
    requires Utf8(s) == Utf8(t)
    ensures s == t
  {
    if s != [] && t != [] {
      LeadingCharIsRecovered(s[0], Utf8(s[1..]));
      LeadingCharIsRecovered(t[0], Utf8(t[1..]));
      assert s[0] == t[0];
      var k := |EncodeChar(s[0])|;
      assert Utf8(s)[k..] == Utf8(s[1..]) && Utf8(t)[k..] == Utf8(t[1..]);
      Utf8Injective(s[1..], t[1..]);
      assert s == [s[0]] + s[1..] && t == [t[0]] + t[1..];
    }
  }

  // ----- percent-encoding -----

  /** The unreserved characters of section 2.3 of RFC 3986. */
  predicate Unreserved(c: char) {
    IsAsciiAlphanumeric(c) || c == '-' || c == '.' || c == '_' || c == '~'
  }

  /** A hexadecimal digit as the encoders write it. */
  predicate IsHexDigit(c: char) { IsAsciiDigit(c) || 'A' <= c <= 'F' }

  /** A hexadecimal digit as a reader takes it, in either case. */
  predicate IsHexDigitEitherCase(c: char) { IsHexDigit(c) || 'a' <= c <= 'f' }

  function HexDigit(n: int): (c: char)
    requires 0 <= n < 16
    ensures IsHexDigit(c) && HexValue(c) == n
  {
    if n < 10 then '0' + n as char else 'A' + (n - 10) as char
  }

  function HexValue(c: char): (n: int)
    requires IsHexDigitEitherCase(c)
    ensures 0 <= n < 16
  {
    if IsAsciiDigit(c) then c as int - '0' as int
    else if 'A' <= c <= 'F' then c as int - 'A' as int + 10
    else c as int - 'a' as int + 10
  }

  function EncodedByte(b: Byte): string {
    if Unreserved(b as char) then [b as char] else ['%', HexDigit(b / 16), HexDigit(b % 16)]
  }

  function Encoded(bytes: seq<Byte>): string {
    if bytes == [] then [] else EncodedByte(bytes[0]) + Encoded(bytes[1..])
  }

  lemma {:induction false} EncodedAppend(bytes: seq<Byte>, b: Byte)
    ensures Encoded(bytes + [b]) == Encoded(bytes) + EncodedByte(b)
  {
    if bytes == [] {
      assert Encoded([b]) == EncodedByte(b) + Encoded([]);
    } else {
      assert (bytes + [b])[1..] == bytes[1..] + [b];
      EncodedAppend(bytes[1..], b);
    }
  }

  /** `segment`: the Connect client's encoder. */
  method Segment(raw: seq<Byte>) returns (encoded: string)
    ensures encoded == Encoded(raw)
  {
    encoded := "";
    for i := 0 to |raw|
      invariant encoded == Encoded(raw[..i])
    {
      var byte := raw[i];
      EncodedAppend(raw[..i], byte);
      assert raw[..i + 1] == raw[..i] + [byte];
      if IsAsciiAlphanumeric(byte as char) || byte as char in {'-', '.', '_', '~'} {
        encoded := encoded + [byte as char];
      } else {
        encoded := encoded + ['%', HexDigit(byte / 16), HexDigit(byte % 16)];
      }
    }
    assert raw[..|raw|] == raw;
  }

  /** `encode`: the schema registry's encoder, which matches on byte ranges instead. */
  method Encode(segment: seq<Byte>) returns (out: string)
    ensures out == Encoded(segment)
  {
    out := "";
    for i := 0 to |segment|
      invariant out == Encoded(segment[..i])
    {
      var byte := segment[i];
      EncodedAppend(segment[..i], byte);
      assert segment[..i + 1] == segment[..i] + [byte];
      if 65 <= byte <= 90 || 97 <= byte <= 122 || 48 <= byte <= 57
         || byte == 45 || byte == 95 || byte == 46 || byte == 126 {
        out := out + [byte as char];
      } else {
        out := out + ['%', HexDigit(byte / 16), HexDigit(byte % 16)];
      }
    }
    assert segment[..|segment|] == segment;
  }

  /** Section 2.1 of RFC 3986 read backwards: `%XX` is a byte, any other ASCII character is itself. */
  function Decoded(text: string): Option<seq<Byte>>
    decreases |text|
  {
    if text == [] then Some([])
    else if text[0] == '%' then
      if |text| >= 3 && IsHexDigitEitherCase(text[1]) && IsHexDigitEitherCase(text[2]) then
        match Decoded(text[3..])
        case Some(rest) => Some([16 * HexValue(text[1]) + HexValue(text[2])] + rest)
        case None => None
      else None
    else if text[0] as int < 128 then
      match Decoded(text[1..])
      case Some(rest) => Some([text[0] as int] + rest)
      case None => None
    else None
  }

  lemma {:induction false} DecodedOfEncoded(bytes: seq<Byte>)
    ensures Decoded(Encoded(bytes)) == Some(bytes)
  {
    if bytes != [] {
      DecodedOfEncoded(bytes[1..]);
      var head, tail := EncodedByte(bytes[0]), Encoded(bytes[1..]);
      assert (head + tail)[|head|..] == tail;
      assert bytes == [bytes[0]] + bytes[1..];
    }
  }

  /** The output alphabet: unreserved characters, `%` and hexadecimal digits, so never `/` or `?`. */
  lemma {:induction false} EncodedAlphabet(bytes: seq<Byte>)
    ensures forall c | c in Encoded(bytes) :: Unreserved(c) || c == '%' || IsHexDigit(c)
    ensures '/' !in Encoded(bytes) && '?' !in Encoded(bytes)
  {
    if bytes != [] {
      EncodedAlphabet(bytes[1..]);
    }
  }

  /** Encoding makes nothing shorter, and nothing it has to escape stays as short as it was. */
  lemma {:induction false} EncodedLength(bytes: seq<Byte>)
    ensures |Encoded(bytes)| >= |bytes|
    ensures |Encoded(bytes)| == |bytes| ==> '%' !in Encoded(bytes)
  {
    if bytes != [] {
      EncodedLength(bytes[1..]);
    }
  }

  lemma {:induction false} Utf8Length(s: string)
    ensures |Utf8(s)| >= |s|
  {
    if s != [] {
      Utf8Length(s[1..]);
    }
  }

  /** What needs no escape gets none (section 2.3 of RFC 3986). */
  lemma {:induction false} UnreservedStays(bytes: seq<Byte>)
    requires forall b | b in bytes ::
               (65 <= b <= 90) || (97 <= b <= 122) || (48 <= b <= 57) || b == 45 || b == 46 || b == 95 || b == 126
    ensures Encoded(bytes) == seq(|bytes|, i requires 0 <= i < |bytes| => bytes[i] as char)
  {
    if bytes != [] {
      assert bytes[0] in bytes && forall b | b in bytes[1..] :: b in bytes;
      UnreservedStays(bytes[1..]);
    }
  }

  /** A Connect or registry name as it stands in a path. */
  function Segmented(name: string): string {
    Encoded(Utf8(name))
  }

  /** Two names never address one resource. */
  lemma SegmentedInjective(a: string, b: string)
    ensures Segmented(a) == Segmented(b) <==> a == b
  {
    if Segmented(a) == Segmented(b) {
      DecodedOfEncoded(Utf8(a));
      DecodedOfEncoded(Utf8(b));
      Utf8Injective(a, b);
    }
  }

  /**
    The names whose segment is a dot segment (section 5.2.4 of RFC 3986): exactly `.` and `..`. A
    URL parser that removes dot segments re-addresses those two and no other.
  */
  lemma DotSegments(name: string)
    ensures Segmented(name) == "." <==> name == "."
    ensures Segmented(name) == ".." <==> name == ".."
  {
    assert Utf8(".") == [46] by {
      assert Utf8(".") == EncodeChar('.') + Utf8([]);
    }
    assert Utf8("..") == [46, 46] by {
      assert ".."[1..] == ".";
    }
    assert Encoded([46]) == ".";
    assert Encoded([46, 46]) == ".." by {
      assert [46, 46][1..] == [46];
    }
    SegmentedInjective(name, ".");
    SegmentedInjective(name, "..");
  }
}

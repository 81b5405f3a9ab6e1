/** Base64 without padding as encoding/base64 has it: RawStdEncoding (sections 3.2 and 4 of
    RFC 4648) and RawURLEncoding (section 5). Decoding skips line breaks and, not being strict,
    ignores the unused low bits of the last character. */
module Base64 {
  import opened Outcomes

  type Byte = x: nat | x < 256
  type Bytes = seq<Byte>
  type Sextet = x: nat | x < 64

  datatype Alphabet = Std | Url

  function ToChar(a: Alphabet, n: Sextet): char {
    if n < 26 then 'A' + n as char
    else if n < 52 then 'a' + (n - 26) as char
    else if n < 62 then '0' + (n - 52) as char
    else if n == 62 then (if a.Std? then '+' else '-')
    else (if a.Std? then '/' else '_')
  }

  function OfChar(a: Alphabet, c: char): Option<Sextet> {
    if 'A' <= c <= 'Z' then Some(c as int - 'A' as int)
    else if 'a' <= c <= 'z' then Some(c as int - 'a' as int + 26)
    else if '0' <= c <= '9' then Some(c as int - '0' as int + 52)
    else if c == (if a.Std? then '+' else '-') then Some(62)
    else if c == (if a.Std? then '/' else '_') then Some(63)
    else None
  }

  function ToChars(a: Alphabet, s: seq<Sextet>): string {
    seq(|s|, i requires 0 <= i < |s| => ToChar(a, s[i]))
  }

  /** Three bytes make four sextets; one or two left over make two or three. */
  function Sextets(b: Bytes): seq<Sextet> {
    if |b| == 0 then []
    else if |b| == 1 then [b[0] / 4, b[0] % 4 * 16]
    else if |b| == 2 then [b[0] / 4, b[0] % 4 * 16 + b[1] / 16, b[1] % 16 * 4]
    else [b[0] / 4, b[0] % 4 * 16 + b[1] / 16, b[1] % 16 * 4 + b[2] / 64, b[2] % 64] + Sextets(b[3..])
  }

  function Encode(a: Alphabet, b: Bytes): string {
    ToChars(a, Sextets(b))
  }

  /** The sextets of a text, line breaks skipped; None at any other foreign character. */
  function OfChars(a: Alphabet, text: string): Option<seq<Sextet>> {
    if text == "" then Some([]) else
      var n := |text| - 1;
      var init := OfChars(a, text[..n]);
      if text[n] == '\r' || text[n] == '\n' then init
      else if init.None? || OfChar(a, text[n]).None? then None
      else Some(init.value + [OfChar(a, text[n]).value])
  }

  function Byte1(a: int, b: int): Byte requires 0 <= a < 64 && 0 <= b < 64 { a * 4 + b / 16 }
  function Byte2(b: int, c: int): Byte requires 0 <= b < 64 && 0 <= c < 64 { b % 16 * 16 + c / 4 }
  function Byte3(c: int, d: int): Byte requires 0 <= c < 64 && 0 <= d < 64 { c % 4 * 64 + d }

  function OfSextets(s: seq<Sextet>): Option<Bytes> {
    if |s| == 0 then Some([])
    else if |s| == 1 then None
    else if |s| == 2 then Some([Byte1(s[0], s[1])])
    else if |s| == 3 then Some([Byte1(s[0], s[1]), Byte2(s[1], s[2])])
    else
      var rest := OfSextets(s[4..]);
      if rest.None? then None
      else Some([Byte1(s[0], s[1]), Byte2(s[1], s[2]), Byte3(s[2], s[3])] + rest.value)
  }

  function Decode(a: Alphabet, text: string): Option<Bytes> {
    var s := OfChars(a, text);
    if s.None? then None else OfSextets(s.value)
  }

  lemma CharRoundTrip(a: Alphabet, n: Sextet)
    ensures OfChar(a, ToChar(a, n)) == Some(n)
    ensures ToChar(a, n) !in "\r\n$."
  {
  }

  lemma {:induction false} CharsRoundTrip(a: Alphabet, s: seq<Sextet>)
    ensures OfChars(a, ToChars(a, s)) == Some(s)
  {
    if s != [] {
      var n := |s| - 1;
      CharsRoundTrip(a, s[..n]);
      assert ToChars(a, s)[..n] == ToChars(a, s[..n]);
      CharRoundTrip(a, s[n]);
      assert s == s[..n] + [s[n]];
    } else {
      assert ToChars(a, s) == "";
    }
  }

  lemma BytesBack(x: Byte, y: Byte, z: Byte)
    ensures Byte1(x / 4, x % 4 * 16 + y / 16) == x
    ensures Byte2(x % 4 * 16 + y / 16, y % 16 * 4 + z / 64) == y
    ensures Byte3(y % 16 * 4 + z / 64, z % 64) == z
  {
    assert (x % 4 * 16 + y / 16) / 16 == x % 4 && (x % 4 * 16 + y / 16) % 16 == y / 16;
    assert (y % 16 * 4 + z / 64) / 4 == y % 16 && (y % 16 * 4 + z / 64) % 4 == z / 64;
  }

  lemma FourSextets(x: Byte, y: Byte, z: Byte, rest: seq<Sextet>)
    ensures var s := [x / 4, x % 4 * 16 + y / 16, y % 16 * 4 + z / 64, z % 64] + rest;
            OfSextets(s) == if OfSextets(rest).None? then None else Some([x, y, z] + OfSextets(rest).value)
  {
    var s := [x / 4, x % 4 * 16 + y / 16, y % 16 * 4 + z / 64, z % 64] + rest;
    assert s[4..] == rest;
    BytesBack(x, y, z);
  }

  lemma OfThree(a: Sextet, b: Sextet, c: Sextet)
    ensures OfSextets([a, b]) == Some([Byte1(a, b)])
    ensures OfSextets([a, b, c]) == Some([Byte1(a, b), Byte2(b, c)])
  {
  }

  lemma OneByteBack(x: Byte)
    ensures OfSextets([x / 4, x % 4 * 16]) == Some([x])
  {
    OfThree(x / 4, x % 4 * 16, 0);
    BytesBack(x, 0, 0);
  }

  lemma TwoBytesBack(x: Byte, y: Byte)
    ensures OfSextets([x / 4, x % 4 * 16 + y / 16, y % 16 * 4]) == Some([x, y])
  {
    OfThree(x / 4, x % 4 * 16 + y / 16, y % 16 * 4);
    BytesBack(x, y, 0);
  }

  lemma {:induction false} SextetsRoundTrip(b: Bytes)
    ensures OfSextets(Sextets(b)) == Some(b)
  {
    if |b| == 1 {
      OneByteBack(b[0]);
      assert b == [b[0]];
    } else if |b| == 2 {
      TwoBytesBack(b[0], b[1]);
      assert b == [b[0], b[1]];
    } else if |b| >= 3 {
      FourSextets(b[0], b[1], b[2], Sextets(b[3..]));
      SextetsRoundTrip(b[3..]);
      assert b == [b[0], b[1], b[2]] + b[3..];
    }
  }

  /** Decoding undoes encoding. */
  lemma DecodeUndoesEncode(a: Alphabet, b: Bytes)
    ensures Decode(a, Encode(a, b)) == Some(b)
  {
    CharsRoundTrip(a, Sextets(b));
    SextetsRoundTrip(b);
  }

  /** The separators of the formats built on it never occur in an encoding. */
  lemma EncodingHasNoSeparator(a: Alphabet, b: Bytes)
    ensures '$' !in Encode(a, b) && '.' !in Encode(a, b)
  {
    forall i | 0 <= i < |Sextets(b)| ensures ToChar(a, Sextets(b)[i]) !in "\r\n$." {
      CharRoundTrip(a, Sextets(b)[i]);
    }
  }

  // The encodings themselves

  /** The alphabets of sections 4 and 5, by character code. */
  lemma AlphabetLaw(a: Alphabet, n: Sextet)
    ensures var code := ToChar(a, n) as int;
            && (n < 26 ==> code == 65 + n) && (26 <= n < 52 ==> code == 97 + n - 26)
            && (52 <= n < 62 ==> code == 48 + n - 52)
            && (n == 62 ==> ToChar(a, n) == if a == Std then '+' else '-')
            && (n == 63 ==> ToChar(a, n) == if a == Std then '/' else '_')
    ensures forall c :: OfChar(a, c) == Some(n) <==> c == ToChar(a, n)
  {
  }

  /** What digits of a base spell, the first the most significant. */
  function Number(digits: seq<nat>, base: nat): nat {
    if digits == [] then 0 else Number(digits[..|digits| - 1], base) * base + digits[|digits| - 1]
  }

  lemma NumberOf(d: seq<nat>, base: nat)
    ensures |d| == 1 ==> Number(d, base) == d[0]
    ensures |d| == 2 ==> Number(d, base) == d[0] * base + d[1]
    ensures |d| == 3 ==> Number(d, base) == (d[0] * base + d[1]) * base + d[2]
    ensures |d| == 4 ==> Number(d, base) == ((d[0] * base + d[1]) * base + d[2]) * base + d[3]
  {
    if |d| == 1 {
      assert d[..0] == [];
    } else if |d| == 2 {
      NumberOf(d[..1], base);
    } else if |d| == 3 {
      NumberOf(d[..2], base);
    } else if |d| == 4 {
      NumberOf(d[..3], base);
    }
  }

  /** The bits of the bytes, six at a time from the left, the last group filled up with zeros. */
  lemma GroupLaw(x: Byte, y: Byte, z: Byte, rest: Bytes)
    ensures Sextets([]) == []
    ensures |Sextets([x])| == 2 && Number(Sextets([x]), 64) == Number([x], 256) * 16
    ensures |Sextets([x, y])| == 3 && Number(Sextets([x, y]), 64) == Number([x, y], 256) * 4
    ensures |Sextets([x, y, z])| == 4 && Number(Sextets([x, y, z]), 64) == Number([x, y, z], 256)
    ensures Sextets([x, y, z] + rest) == Sextets([x, y, z]) + Sextets(rest)
  {
    assert ([x, y, z] + rest)[3..] == rest && [x, y, z][3..] == [];
    NumberOf(Sextets([x]), 64);
    NumberOf(Sextets([x, y]), 64);
    NumberOf(Sextets([x, y, z]), 64);
    NumberOf([x], 256);
    NumberOf([x, y], 256);
    NumberOf([x, y, z], 256);
  }

  /** An encoding spells the sextets, character by character. */
  lemma EncodeLaw(a: Alphabet, b: Bytes)
    ensures |Encode(a, b)| == |Sextets(b)|
    ensures forall i | 0 <= i < |Sextets(b)| :: Encode(a, b)[i] == ToChar(a, Sextets(b)[i])
  {
  }

  /** A decoder skips line breaks and refuses any other foreign character, and a lone last one. */
  lemma DecodeLaw(a: Alphabet, text: string, c: char)
    ensures OfChars(a, "") == Some([])
    ensures c == '\r' || c == '\n' ==> OfChars(a, text + [c]) == OfChars(a, text)
    ensures OfChars(a, text).None? && c != '\r' && c != '\n' ==> OfChars(a, text + [c]).None?
    ensures OfChar(a, c).None? && c != '\r' && c != '\n' ==> OfChars(a, text + [c]).None?
    ensures OfChars(a, text).Some? && OfChar(a, c).Some? ==>
              OfChars(a, text + [c]) == Some(OfChars(a, text).value + [OfChar(a, c).value])
  {
    assert (text + [c])[..|text|] == text;
  }

  lemma {:induction false} LoneSextet(s: seq<Sextet>)
    ensures OfSextets(s).None? <==> |s| % 4 == 1
  {
    if |s| >= 4 {
      LoneSextet(s[4..]);
    }
  }
}

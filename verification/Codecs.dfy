/**
 * The encodings under access tokens: UTF-8, base64url without padding (section 5
 * of RFC 4648), decimal integers, and splitting on a separator.
 */
module Codecs {
  import opened Prelude

  type Byte = b: int | 0 <= b < 256
  type Bytes = seq<Byte>

  // ---------------------------------------------------------------- base64url

  type Sextet = i: int | 0 <= i < 64

  function CharOf(i: Sextet): char {
    if i < 26 then ('A' as int + i) as char
    else if i < 52 then ('a' as int + (i - 26)) as char
    else if i < 62 then ('0' as int + (i - 52)) as char
    else if i == 62 then '-'
    else '_'
  }

  /** The decoder translates `-` and `_` to `+` and `/`, which it therefore also takes. */
  function SextetOf(c: char): Option<Sextet> {
    if 'A' <= c <= 'Z' then Some(c as int - 'A' as int)
    else if 'a' <= c <= 'z' then Some(c as int - 'a' as int + 26)
    else if '0' <= c <= '9' then Some(c as int - '0' as int + 52)
    else if c == '-' || c == '+' then Some(62)
    else if c == '_' || c == '/' then Some(63)
    else None
  }

  function S0(a: int): Sextet
    requires 0 <= a < 256
  {
    a / 4
  }

  function S1(a: int, b: int): Sextet
    requires 0 <= a < 256 && 0 <= b < 256
  {
    a % 4 * 16 + b / 16
  }

  function S2(b: int, c: int): Sextet
    requires 0 <= b < 256 && 0 <= c < 256
  {
    b % 16 * 4 + c / 64
  }

  function S3(c: int): Sextet
    requires 0 <= c < 256
  {
    c % 64
  }

  /** Three bytes are four sextets; one or two bytes at the end are zero-filled and cut. */
  function ToSextets(b: Bytes): seq<Sextet> {
    if |b| >= 3 then [S0(b[0]), S1(b[0], b[1]), S2(b[1], b[2]), S3(b[2])] + ToSextets(b[3..])
    else if |b| == 2 then [S0(b[0]), S1(b[0], b[1]), S2(b[1], 0)]
    else if |b| == 1 then [S0(b[0]), S1(b[0], 0)]
    else []
  }

  function FirstByte(a: int, b: int): Byte
    requires 0 <= a < 64 && 0 <= b < 64
  {
    a * 4 + b / 16
  }

  function SecondByte(a: int, b: int): Byte
    requires 0 <= a < 64 && 0 <= b < 64
  {
    a % 16 * 16 + b / 4
  }

  function ThirdByte(a: int, b: int): Byte
    requires 0 <= a < 64 && 0 <= b < 64
  {
    a % 4 * 64 + b
  }

  function FromSextets(x: seq<Sextet>): Bytes
    requires |x| % 4 != 1
  {
    if |x| >= 4 then
      [FirstByte(x[0], x[1]), SecondByte(x[1], x[2]), ThirdByte(x[2], x[3])] + FromSextets(x[4..])
    else if |x| == 3 then [FirstByte(x[0], x[1]), SecondByte(x[1], x[2])]
    else if |x| == 2 then [FirstByte(x[0], x[1])]
    else []
  }

  lemma BlockRoundTrip(a: Byte, b: Byte, c: Byte)
    ensures FirstByte(S0(a), S1(a, b)) == a
    ensures SecondByte(S1(a, b), S2(b, c)) == b
    ensures ThirdByte(S2(b, c), S3(c)) == c
  {}

  lemma {:induction false} SextetsRoundTrip(b: Bytes)
    ensures |ToSextets(b)| % 4 != 1
    ensures FromSextets(ToSextets(b)) == b
  {
    if |b| >= 3 {
      SextetsRoundTrip(b[3..]);
      BlockRoundTrip(b[0], b[1], b[2]);
      BlockDecodes(S0(b[0]), S1(b[0], b[1]), S2(b[1], b[2]), S3(b[2]), ToSextets(b[3..]));
      assert b == [b[0], b[1], b[2]] + b[3..];
    } else {
      ShortRoundTrip(b);
    }
  }

  lemma TwoBytesRoundTrip(x: Byte, y: Byte)
    ensures FromSextets([S0(x), S1(x, y), S2(y, 0)]) == [x, y]
  {
    BlockRoundTrip(x, y, 0);
    var s := [S0(x), S1(x, y), S2(y, 0)];
    assert FromSextets(s) == [FirstByte(s[0], s[1]), SecondByte(s[1], s[2])];
  }

  lemma OneByteRoundTrip(x: Byte)
    ensures FromSextets([S0(x), S1(x, 0)]) == [x]
  {
    FirstByteRoundTrip(x, 0);
    TwoSextets(S0(x), S1(x, 0));
  }

  lemma FirstByteRoundTrip(a: Byte, b: Byte)
    ensures FirstByte(S0(a), S1(a, b)) == a
  {}

  lemma TwoSextets(a: Sextet, b: Sextet)
    ensures FromSextets([a, b]) == [FirstByte(a, b)]
  {}

  lemma ShortRoundTrip(b: Bytes)
    requires |b| < 3
    ensures |ToSextets(b)| % 4 != 1
    ensures FromSextets(ToSextets(b)) == b
  {
    if |b| == 2 {
      TwoBytesRoundTrip(b[0], b[1]);
      assert b == [b[0], b[1]];
    } else if |b| == 1 {
      OneByteRoundTrip(b[0]);
      assert b == [b[0]];
    }
  }

  lemma BlockDecodes(a: Sextet, b: Sextet, c: Sextet, d: Sextet, rest: seq<Sextet>)
    requires |rest| % 4 != 1
    ensures |[a, b, c, d] + rest| % 4 != 1
    ensures FromSextets([a, b, c, d] + rest) == [FirstByte(a, b), SecondByte(b, c), ThirdByte(c, d)] + FromSextets(rest)
  {
    var x := [a, b, c, d] + rest;
    assert x[0] == a && x[1] == b && x[2] == c && x[3] == d;
    assert x[4..] == rest;
  }

  function Encode(b: Bytes): string {
    var x := ToSextets(b);
    seq(|x|, i requires 0 <= i < |x| => CharOf(x[i]))
  }

  function WithoutPad(s: string): string {
    if s != "" && s[|s| - 1] == '=' then WithoutPad(s[..|s| - 1]) else s
  }

  function Sextets(s: string): Option<seq<Sextet>> {
    if s == "" then Some([])
    else
      match (Sextets(s[..|s| - 1]), SextetOf(s[|s| - 1]))
      case (Some(before), Some(last)) => Some(before + [last])
      case (_, _) => None
  }

  /** The missing padding is added, and the strict decoder takes it off again. */
  function Decode(s: string): Option<Bytes> {
    var padded := s + (if |s| % 4 == 0 then "" else if |s| % 4 == 3 then "=" else if |s| % 4 == 2 then "==" else "===");
    var data := WithoutPad(padded);
    if |padded| - |data| > 2 then None
    else
      match Sextets(data)
      case None => None
      case Some(x) => if |x| % 4 == 1 then None else Some(FromSextets(x))
  }

  lemma CharRoundTrip(i: Sextet)
    ensures SextetOf(CharOf(i)) == Some(i)
    ensures CharOf(i) != '=' && CharOf(i) != '.'
  {}

  lemma {:induction false} SextetsOfChars(s: string, x: seq<Sextet>)
    requires |s| == |x| && forall i :: 0 <= i < |x| ==> s[i] == CharOf(x[i])
    ensures Sextets(s) == Some(x)
  {
    if s != "" {
      CharRoundTrip(x[|x| - 1]);
      SextetsOfChars(s[..|s| - 1], x[..|x| - 1]);
      assert x == x[..|x| - 1] + [x[|x| - 1]];
    }
  }

  lemma {:induction false} PadComesOff(s: string, pad: string)
    requires s == "" || s[|s| - 1] != '='
    requires forall i :: 0 <= i < |pad| ==> pad[i] == '='
    ensures WithoutPad(s + pad) == s
  {
    if pad == "" {
      assert s + pad == s;
    } else {
      PadComesOff(s, pad[..|pad| - 1]);
      assert (s + pad)[..|s + pad| - 1] == s + pad[..|pad| - 1];
    }
  }

  /** Decoding an unpadded encoding is the identity, on every byte string. */
  lemma DecodeUndoesEncode(b: Bytes)
    ensures Decode(Encode(b)) == Some(b)
    ensures '.' !in Encode(b)
  {
    var x, s := ToSextets(b), Encode(b);
    SextetsRoundTrip(b);
    forall i | 0 <= i < |x|
      ensures s[i] != '=' && s[i] != '.'
    {
      CharRoundTrip(x[i]);
    }
    var pad := if |s| % 4 == 0 then "" else if |s| % 4 == 3 then "=" else "==";
    PadComesOff(s, pad);
    SextetsOfChars(s, x);
  }

  /** The alphabet of section 5 of RFC 4648, in its order. */
  const ALPHABET := "ABCDEFGHIJKLM" + "NOPQRSTUVWXYZ" + "abcdefghijklm" + "nopqrstuvwxyz" + "0123456789" + "-_"

  lemma CharsAreTheAlphabet(i: Sextet)
    ensures |ALPHABET| == 64 && CharOf(i) == ALPHABET[i]
  {}

  /** A character is read as its place in the alphabet, as is the one the decoder also takes for it. */
  lemma ReadIff(c: char, i: Sextet)
    ensures SextetOf(c) == Some(i) <==> c == CharOf(i) || (c == '+' && i == 62) || (c == '/' && i == 63)
  {}

  /** Three bytes and their four sextets are one 24-bit number; shorter ends are filled with zero bits. */
  lemma SextetsAreTheBits(a: Byte, b: Byte, c: Byte)
    ensures ((S0(a) * 64 + S1(a, b)) * 64 + S2(b, c)) * 64 + S3(c) == (a * 256 + b) * 256 + c
    ensures (S0(a) * 64 + S1(a, b)) * 64 + S2(b, 0) == (a * 256 + b) * 4
    ensures S0(a) * 64 + S1(a, 0) == a * 16
  {
    assert a == a / 4 * 4 + a % 4 && b == b / 16 * 16 + b % 16 && c == c / 64 * 64 + c % 64;
  }

  function Zeros(n: nat): Bytes {
    seq(n, i => 0)
  }

  lemma {:induction false} SextetCount(b: Bytes)
    ensures |ToSextets(b)| == |b| + (|b| + 2) / 3
  {
    if |b| >= 3 {
      SextetCount(b[3..]);
    }
  }

  lemma OneBlock(b: Bytes)
    requires |b| == 3
    ensures ToSextets(b) == [S0(b[0]), S1(b[0], b[1]), S2(b[1], b[2]), S3(b[2])]
  {
    assert b[3..] == [];
  }

  lemma ShortEndIsZeroFilled(b: Bytes)
    requires 0 < |b| < 3
    ensures ToSextets(b) <= ToSextets(b + Zeros(3 - |b|))
  {
    var filled := b + Zeros(3 - |b|);
    OneBlock(filled);
    assert filled[0] == b[0] && filled[1] == (if |b| == 2 then b[1] else 0) && filled[2] == 0;
  }

  lemma {:induction false} FillingExtends(b: Bytes)
    ensures ToSextets(b) <= ToSextets(b + Zeros(2 - (|b| + 2) % 3))
  {
    var filled := b + Zeros(2 - (|b| + 2) % 3);
    if |b| >= 3 {
      FillingExtends(b[3..]);
      assert filled[..3] == b[..3] && filled[3..] == b[3..] + Zeros(2 - (|b[3..]| + 2) % 3);
    } else if b != [] {
      ShortEndIsZeroFilled(b);
    }
  }

  /** An end of one or two bytes is encoded as if zeros followed, and what only the zeros fill is left away. */
  lemma EndIsZeroFilled(b: Bytes)
    ensures var filled := b + Zeros(2 - (|b| + 2) % 3);
            && |filled| % 3 == 0
            && |ToSextets(filled)| == |filled| / 3 * 4
            && |ToSextets(b)| == |b| + |filled| / 3
            && ToSextets(b) <= ToSextets(filled)
  {
    FillingExtends(b);
    SextetCount(b);
    SextetCount(b + Zeros(2 - (|b| + 2) % 3));
  }

  // -------------------------------------------------------------------- UTF-8

  function EncodeChar(c: char): Bytes {
    var n := c as int;
    if n < 0x80 then [n]
    else if n < 0x800 then [0xC0 + n / 64, 0x80 + n % 64]
    else if n < 0x10000 then [0xE0 + n / 4096, 0x80 + n / 64 % 64, 0x80 + n % 64]
    else [0xF0 + n / 262144, 0x80 + n / 4096 % 64, 0x80 + n / 64 % 64, 0x80 + n % 64]
  }

  function EncodeUtf8(s: string): Bytes {
    if s == "" then [] else EncodeChar(s[0]) + EncodeUtf8(s[1..])
  }

  predicate Continues(b: Byte) {
    0x80 <= b < 0xC0
  }

  function Low(b: int): (low: int)
    requires 0x80 <= b < 0xC0
    ensures 0 <= low < 64
  {
    b - 0x80
  }

  predicate IsScalar(n: int) {
    0 <= n < 0xD800 || 0xE000 <= n < 0x110000
  }

  /** One character off the front: refuses stray and missing continuation bytes, overlong forms and surrogates. */
  function DecodeChar(b: Bytes): Option<(char, nat)>
    requires b != []
    ensures DecodeChar(b).Some? ==> 1 <= DecodeChar(b).value.1 <= |b|
  {
    var lead: int := b[0];
    if lead < 0x80 then Some((lead as char, 1))
    else if 0xC2 <= lead < 0xE0 && |b| >= 2 && Continues(b[1]) then
      Some((((lead - 0xC0) * 64 + Low(b[1])) as char, 2))
    else if 0xE0 <= lead < 0xF0 && |b| >= 3 && Continues(b[1]) && Continues(b[2]) then
      var n := (lead - 0xE0) * 4096 + Low(b[1]) * 64 + Low(b[2]);
      if n >= 0x800 && IsScalar(n) then Some((n as char, 3)) else None
    else if 0xF0 <= lead < 0xF5 && |b| >= 4 && Continues(b[1]) && Continues(b[2]) && Continues(b[3]) then
      var n := (lead - 0xF0) * 262144 + Low(b[1]) * 4096 + Low(b[2]) * 64 + Low(b[3]);
      if n >= 0x10000 && IsScalar(n) then Some((n as char, 4)) else None
    else None
  }

  function DecodeUtf8(b: Bytes): Option<string> {
    if b == [] then Some("")
    else
      match DecodeChar(b)
      case None => None
      case Some((c, used)) =>
        match DecodeUtf8(b[used..])
        case None => None
        case Some(rest) => Some([c] + rest)
  }

  lemma ThreeDigitsOf64(n: nat)
    ensures n / 4096 * 4096 + n / 64 % 64 * 64 + n % 64 == n
  {
    assert n / 64 / 64 == n / 4096;
  }

  lemma FourDigitsOf64(n: nat)
    ensures n / 262144 * 262144 + n / 4096 % 64 * 4096 + n / 64 % 64 * 64 + n % 64 == n
  {
    ThreeDigitsOf64(n);
    assert n / 4096 / 64 == n / 262144;
  }

  /** What the bytes of a character are: its number, in the bits section 3 of RFC 3629 gives them. */
  lemma EncodedBitsAre(c: char)
    ensures var n, b := c as int, EncodeChar(c);
            && |b| == (if n < 0x80 then 1 else if n < 0x800 then 2 else if n < 0x10000 then 3 else 4)
            && (forall i :: 1 <= i < |b| ==> 0x80 <= b[i] < 0xC0)
            && (|b| == 1 ==> b[0] == n)
            && (|b| == 2 ==> 0xC0 <= b[0] < 0xE0 && (b[0] as int - 0xC0) * 64 + (b[1] as int - 0x80) == n)
            && (|b| == 3 ==> 0xE0 <= b[0] < 0xF0 && ((b[0] as int - 0xE0) * 64 + (b[1] as int - 0x80)) * 64 + (b[2] as int - 0x80) == n)
            && (|b| == 4 ==> 0xF0 <= b[0] < 0xF8
                             && (((b[0] as int - 0xF0) * 64 + (b[1] as int - 0x80)) * 64 + (b[2] as int - 0x80)) * 64 + (b[3] as int - 0x80) == n)
  {
    ThreeDigitsOf64(c as int);
    FourDigitsOf64(c as int);
  }

  lemma ThreeBytesDecode(c: char, b: Bytes)
    requires 0x800 <= c as int < 0x10000 && EncodeChar(c) <= b
    ensures DecodeChar(b) == Some((c, 3))
  {
    var n := c as int;
    ThreeDigitsOf64(n);
    assert b[0] == EncodeChar(c)[0] && b[1] == EncodeChar(c)[1] && b[2] == EncodeChar(c)[2];
  }

  lemma FourBytesDecode(c: char, b: Bytes)
    requires 0x10000 <= c as int && EncodeChar(c) <= b
    ensures DecodeChar(b) == Some((c, 4))
  {
    var n := c as int;
    FourDigitsOf64(n);
    assert b[0] == EncodeChar(c)[0] && b[1] == EncodeChar(c)[1] && b[2] == EncodeChar(c)[2] && b[3] == EncodeChar(c)[3];
  }

  lemma CharDecodes(c: char, rest: Bytes)
    ensures DecodeChar(EncodeChar(c) + rest) == Some((c, |EncodeChar(c)|))
  {
    var n := c as int;
    var b := EncodeChar(c) + rest;
    if n < 0x80 {
      assert b[0] == n;
    } else if n < 0x800 {
      assert b[0] == 0xC0 + n / 64 && b[1] == 0x80 + n % 64;
    } else if n < 0x10000 {
      ThreeBytesDecode(c, b);
    } else {
      FourBytesDecode(c, b);
    }
  }

  lemma {:induction false} Utf8RoundTrip(s: string)
    ensures DecodeUtf8(EncodeUtf8(s)) == Some(s)
  {
    if s != "" {
      var head, rest := EncodeChar(s[0]), EncodeUtf8(s[1..]);
      Utf8RoundTrip(s[1..]);
      CharDecodes(s[0], rest);
      assert (head + rest)[|head|..] == rest;
      assert s == [s[0]] + s[1..];
    }
  }

  lemma DigitsOf64(q: nat, r: nat)
    requires r < 64
    ensures (q * 64 + r) / 64 == q && (q * 64 + r) % 64 == r
  {}

  lemma TwoBytesAreTheCharacter(b: Bytes)
    requires b != [] && DecodeChar(b).Some? && DecodeChar(b).value.1 == 2
    ensures EncodeChar(DecodeChar(b).value.0) == b[..2]
  {
    DigitsOf64(b[0] as int - 0xC0, Low(b[1]));
  }

  lemma ThreeBytesAreTheCharacter(b: Bytes)
    requires b != [] && DecodeChar(b).Some? && DecodeChar(b).value.1 == 3
    ensures EncodeChar(DecodeChar(b).value.0) == b[..3]
  {
    var q := b[0] as int - 0xE0;
    DigitsOf64(q, Low(b[1]));
    DigitsOf64(q * 64 + Low(b[1]), Low(b[2]));
    ThreeDigitsOf64(DecodeChar(b).value.0 as int);
  }

  lemma FourBytesAreTheCharacter(b: Bytes)
    requires b != [] && DecodeChar(b).Some? && DecodeChar(b).value.1 == 4
    ensures EncodeChar(DecodeChar(b).value.0) == b[..4]
  {
    var q := b[0] as int - 0xF0;
    DigitsOf64(q, Low(b[1]));
    DigitsOf64(q * 64 + Low(b[1]), Low(b[2]));
    DigitsOf64((q * 64 + Low(b[1])) * 64 + Low(b[2]), Low(b[3]));
    FourDigitsOf64(DecodeChar(b).value.0 as int);
  }

  lemma DecodedCharacterEncodes(b: Bytes)
    requires b != [] && DecodeChar(b).Some?
    ensures EncodeChar(DecodeChar(b).value.0) == b[..DecodeChar(b).value.1]
  {
    match DecodeChar(b).value.1
    case 2 => TwoBytesAreTheCharacter(b);
    case 3 => ThreeBytesAreTheCharacter(b);
    case 4 => FourBytesAreTheCharacter(b);
    case _ =>
  }

  /** Only what encodes a text is decoded: the decoder takes no second spelling of any text. */
  lemma {:induction false} DecodesIff(b: Bytes, s: string)
    ensures DecodeUtf8(b) == Some(s) <==> b == EncodeUtf8(s)
  {
    Utf8RoundTrip(s);
    if b != [] && DecodeUtf8(b) == Some(s) {
      var used := DecodeChar(b).value.1;
      DecodedCharacterEncodes(b);
      DecodesIff(b[used..], s[1..]);
      assert b == b[..used] + b[used..];
    }
  }

  // ------------------------------------------------------------------ decimals

  function Digit(d: int): char
    requires 0 <= d < 10
  {
    ('0' as int + d) as char
  }

  predicate IsDigit(c: char) {
    '0' <= c <= '9'
  }

  function Digits(n: nat): string {
    if n < 10 then [Digit(n)] else Digits(n / 10) + [Digit(n % 10)]
  }

  function Decimal(n: int): string {
    if n < 0 then "-" + Digits(-n) else Digits(n)
  }

  function ParseDigits(s: string): Option<nat> {
    if s == "" || !IsDigit(s[|s| - 1]) then None
    else
      var d := s[|s| - 1] as int - '0' as int;
      if |s| == 1 then Some(d)
      else
        match ParseDigits(s[..|s| - 1])
        case None => None
        case Some(n) => Some(n * 10 + d)
  }

  function ParseInt(s: string): Option<int> {
    if s != "" && (s[0] == '-' || s[0] == '+') then
      match ParseDigits(s[1..])
      case None => None
      case Some(n) => Some(if s[0] == '-' then 0 - n else n)
    else
      match ParseDigits(s)
      case None => None
      case Some(n) => Some(n)
  }

  lemma {:induction false} DigitsRoundTrip(n: nat)
    ensures ParseDigits(Digits(n)) == Some(n)
    ensures forall i :: 0 <= i < |Digits(n)| ==> IsDigit(Digits(n)[i])
    ensures Digits(n) != ""
  {
    if n >= 10 {
      DigitsRoundTrip(n / 10);
      assert Digits(n)[..|Digits(n)| - 1] == Digits(n / 10);
    }
  }

  lemma NoColonInDigits(s: string)
    requires forall i :: 0 <= i < |s| ==> IsDigit(s[i])
    ensures ':' !in s
  {}

  lemma SignedDigitsParse(s: string, n: nat)
    requires ParseDigits(s) == Some(n) && s != "" && IsDigit(s[0])
    ensures ParseInt(s) == Some(n)
    ensures ParseInt("-" + s) == Some(0 - n)
  {
    assert ("-" + s)[1..] == s;
  }

  lemma {:induction false} NoLeadingZero(n: nat)
    ensures Digits(n) != "" && (Digits(n)[0] == '0' <==> n == 0)
  {
    if n >= 10 {
      NoLeadingZero(n / 10);
    }
  }

  lemma DecimalRoundTrip(n: int)
    ensures ParseInt(Decimal(n)) == Some(n)
    ensures ':' !in Decimal(n)
    ensures Decimal(n) != "" && (Decimal(n)[0] == '-' <==> n < 0) && (Decimal(n)[0] == '0' <==> n == 0)
  {
    var size := if n < 0 then -n else n;
    var s := Digits(size);
    DigitsRoundTrip(size);
    NoLeadingZero(size);
    assert IsDigit(s[0]);
    SignedDigitsParse(s, size);
    NoColonInDigits(s);
  }

  // ----------------------------------------------------------------- splitting

  function Split(s: string, sep: char): seq<string> {
    if s == "" then [""]
    else
      var rest := Split(s[1..], sep);
      if s[0] == sep then [""] + rest
      else if rest == [] then [[s[0]]]
      else [[s[0]] + rest[0]] + rest[1..]
  }

  lemma {:induction false} SplitNeverEmpty(s: string, sep: char)
    ensures Split(s, sep) != []
  {
    if s != "" {
      SplitNeverEmpty(s[1..], sep);
    }
  }

  lemma {:induction false} SplitWhole(s: string, sep: char)
    requires sep !in s
    ensures Split(s, sep) == [s]
  {
    if s != "" {
      SplitWhole(s[1..], sep);
      assert s == [s[0]] + s[1..];
    }
  }

  lemma {:induction false} SplitFirst(a: string, rest: string, sep: char)
    requires sep !in a
    ensures Split(a + [sep] + rest, sep) == [a] + Split(rest, sep)
  {
    var s := a + [sep] + rest;
    if a == "" {
      assert s[1..] == rest;
    } else {
      SplitFirst(a[1..], rest, sep);
      assert s[1..] == a[1..] + [sep] + rest;
      assert a == [a[0]] + a[1..];
    }
  }

  /** Splitting a joined string at the first separator it contains. */
  lemma {:induction false} SplitInside(s: string, rest: string, sep: char)
    requires sep in s
    ensures |Split(s + [sep] + rest, sep)| >= 2 + |Split(rest, sep)|
  {
    var all := s + [sep] + rest;
    if s[0] == sep {
      assert all[1..] == s[1..] + [sep] + rest;
      SplitAtLeast(s[1..], rest, sep);
    } else {
      SplitInside(s[1..], rest, sep);
      assert all[1..] == s[1..] + [sep] + rest;
    }
  }

  lemma {:induction false} SplitAtLeast(s: string, rest: string, sep: char)
    ensures |Split(s + [sep] + rest, sep)| >= 1 + |Split(rest, sep)|
  {
    var all := s + [sep] + rest;
    if s == "" {
      assert all[1..] == rest;
    } else {
      SplitAtLeast(s[1..], rest, sep);
      assert all[1..] == s[1..] + [sep] + rest;
    }
  }
}

/** Signed stateless access tokens (auth.py). The HMAC is any function. */
module AccessTokens {
  import opened Prelude
  import opened Codecs

  type Hmac = (Bytes, Bytes) -> Bytes

  datatype Claims = Claims(refreshId: int, scope: string, expiresAt: int)

  function PayloadText(c: Claims): string {
    "v1" + [':'] + (Decimal(c.refreshId) + [':'] + (c.scope + [':'] + Decimal(c.expiresAt)))
  }

  function Issue(hmac: Hmac, key: Bytes, c: Claims): string {
    var payload := EncodeUtf8(PayloadText(c));
    Encode(payload) + ['.'] + Encode(hmac(key, payload))
  }

  function ParsePayload(text: string, now: int): Option<Claims> {
    var parts := Split(text, ':');
    if |parts| != 4 || parts[0] != "v1" then None
    else
      match (ParseInt(parts[1]), ParseInt(parts[3]))
      case (Some(id), Some(expires)) => if expires <= now then None else Some(Claims(id, parts[2], expires))
      case (_, _) => None
  }

  function Verify(hmac: Hmac, key: Bytes, token: string, now: int): Option<Claims> {
    var parts := Split(token, '.');
    if |parts| != 2 then None
    else
      match (Decode(parts[0]), Decode(parts[1]))
      case (Some(payload), Some(signature)) =>
        if signature != hmac(key, payload) then None
        else
          (match DecodeUtf8(payload)
           case None => None
           case Some(text) => ParsePayload(text, now))
      case (_, _) => None
  }

  /** How a payload reads: version, id, scope and expiry, in that order. */
  lemma PayloadReads()
    ensures PayloadText(Claims(7, "read", 90)) == "v1:7:read:90"
  {
    assert Digits(7) == "7";
    assert Digits(90) == "9" + "0";
  }

  /** A token assembled from any payload and any signature. */
  lemma VerifyAssembled(hmac: Hmac, key: Bytes, payload: Bytes, signature: Bytes, now: int)
    ensures Verify(hmac, key, Encode(payload) + ['.'] + Encode(signature), now)
            == if signature != hmac(key, payload) then None
               else if DecodeUtf8(payload).None? then None
               else ParsePayload(DecodeUtf8(payload).value, now)
  {
    DecodeUndoesEncode(payload);
    DecodeUndoesEncode(signature);
    SplitFirst(Encode(payload), Encode(signature), '.');
    SplitWhole(Encode(signature), '.');
  }

  lemma PayloadParses(c: Claims, now: int)
    ensures ParsePayload(PayloadText(c), now) == if ':' in c.scope || c.expiresAt <= now then None else Some(c)
  {
    var id, expiry := Decimal(c.refreshId), Decimal(c.expiresAt);
    DecimalRoundTrip(c.refreshId);
    DecimalRoundTrip(c.expiresAt);
    var tail := c.scope + [':'] + expiry;
    SplitFirst("v1", id + [':'] + tail, ':');
    SplitFirst(id, tail, ':');
    SplitWhole(expiry, ':');
    if ':' in c.scope {
      SplitInside(c.scope, expiry, ':');
    } else {
      SplitFirst(c.scope, expiry, ':');
    }
  }

  /**
   * Verifying an issued token under the same key gives back exactly its claims if
   * and only if it has not expired and its scope has no colon, for every id,
   * expiry, scope and HMAC.
   */
  lemma VerifyUndoesIssue(hmac: Hmac, key: Bytes, c: Claims, now: int)
    ensures Verify(hmac, key, Issue(hmac, key, c), now)
            == if now < c.expiresAt && ':' !in c.scope then Some(c) else None
  {
    var payload := EncodeUtf8(PayloadText(c));
    VerifyAssembled(hmac, key, payload, hmac(key, payload), now);
    Utf8RoundTrip(PayloadText(c));
    PayloadParses(c, now);
  }

  /**
   * Swapping the signature of one issued token onto another, or presenting a token
   * under another key, is refused unless the HMACs collide.
   */
  lemma SwappedSignatureIsRefused(hmac: Hmac, key: Bytes, other: Bytes, c: Claims, signed: Claims, now: int)
    requires hmac(other, EncodeUtf8(PayloadText(signed))) != hmac(key, EncodeUtf8(PayloadText(c)))
    ensures Verify(hmac, key,
                   Encode(EncodeUtf8(PayloadText(c))) + ['.'] + Encode(hmac(other, EncodeUtf8(PayloadText(signed)))), now)
            == None
  {
    VerifyAssembled(hmac, key, EncodeUtf8(PayloadText(c)), hmac(other, EncodeUtf8(PayloadText(signed))), now);
  }
}

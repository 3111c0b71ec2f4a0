/**
 * Time-based codes (`totp_code` and `verify_totp` in auth.py; section 4 of
 * RFC 6238 over section 5.3 of RFC 4226). The HMAC is any function with 20-byte
 * results.
 */
module Totp {
  import opened Prelude
  import opened Codecs

  const TOTP_STEP := 30
  const TOTP_DIGITS := 6
  const MILLION := 1_000_000
  const COUNTER_LIMIT := 0x1_0000_0000_0000_0000

  type Digest = b: Bytes | |b| == 20 witness seq(20, _ => 0)
  type Hmac = (Bytes, Bytes) -> Digest

  function BigEndian(n: nat, width: nat): (b: Bytes)
    ensures |b| == width
  {
    if width == 0 then [] else BigEndian(n / 256, width - 1) + [n % 256]
  }

  function Value(b: Bytes): nat {
    if b == [] then 0 else Value(b[..|b| - 1]) * 256 + b[|b| - 1]
  }

  /** Four bytes at the offset the last one names, without the sign bit. */
  function Truncated(d: Digest): nat {
    var offset := d[19] % 16;
    d[offset] as int % 128 * 0x100_0000 + d[offset + 1] as int * 0x1_0000 + d[offset + 2] as int * 0x100 + d[offset + 3] as int
  }

  function ZeroPadded(n: nat, width: nat): string {
    if width == 0 then "" else ZeroPadded(n / 10, width - 1) + [Digit(n % 10)]
  }

  function CodeAt(hmac: Hmac, secret: Bytes, counter: nat): string {
    ZeroPadded(Truncated(hmac(secret, BigEndian(counter, 8))) % MILLION, TOTP_DIGITS)
  }

  predicate IsCode(code: string) {
    |code| == TOTP_DIGITS && forall i :: 0 <= i < |code| ==> IsDigit(code[i])
  }

  /** A counter too large for eight bytes, or a secret that is no base32, raises. */
  function TotpCode(hmac: Hmac, secret: Option<Bytes>, at: nat): Option<string> {
    if secret.None? || at / TOTP_STEP >= COUNTER_LIMIT then None
    else Some(CodeAt(hmac, secret.value, at / TOTP_STEP))
  }

  /** The steps of the window are tried in order; whatever raises first refuses the code. */
  method VerifyTotp(hmac: Hmac, secret: Option<Bytes>, code: string, at: int, window: int) returns (ok: bool)
    ensures ok <==> Accepts(hmac, secret, code, at, window)
  {
    if !IsCode(code) || window < 0 {
      return false;
    }
    var offset := -window;
    while offset <= window
      invariant -window <= offset <= window + 1
      invariant forall k :: Step(at) - window <= k < Step(at) + offset && k >= 0 ==>
                  secret.Some? && k < COUNTER_LIMIT && CodeAt(hmac, secret.value, k) != code
    {
      var when := at + offset * TOTP_STEP;
      StepOf(at, offset);
      if when >= 0 {
        var expected := TotpCode(hmac, secret, when);
        if expected.None? || expected.value == code {
          return expected.Some?;
        }
      }
      offset := offset + 1;
    }
    ok := false;
  }

  /** The 30-second step a time lies in. */
  function Step(at: int): int {
    at / TOTP_STEP
  }

  lemma StepOf(at: int, offset: int)
    ensures Step(at + offset * TOTP_STEP) == Step(at) + offset
    ensures at + offset * TOTP_STEP >= 0 <==> Step(at) + offset >= 0
  {}

  /** The code of some step of the window that exists and whose counter fits. */
  ghost predicate Accepts(hmac: Hmac, secret: Option<Bytes>, code: string, at: int, window: int) {
    && IsCode(code)
    && window >= 0
    && secret.Some?
    && exists k: nat :: Step(at) - window <= k <= Step(at) + window && k < COUNTER_LIMIT
                        && CodeAt(hmac, secret.value, k) == code
  }

  lemma {:induction false} ZeroPaddedReadsBack(n: nat, width: nat, bound: nat)
    requires n < bound && bound == PowerOfTen(width)
    ensures |ZeroPadded(n, width)| == width
    ensures forall i :: 0 <= i < width ==> IsDigit(ZeroPadded(n, width)[i])
    ensures width > 0 ==> ParseDigits(ZeroPadded(n, width)) == Some(n)
    decreases width
  {
    if width > 0 {
      assert n / 10 < PowerOfTen(width - 1);
      ZeroPaddedReadsBack(n / 10, width - 1, PowerOfTen(width - 1));
      var s := ZeroPadded(n, width);
      assert s[..width - 1] == ZeroPadded(n / 10, width - 1);
    }
  }

  function PowerOfTen(n: nat): nat {
    if n == 0 then 1 else 10 * PowerOfTen(n - 1)
  }

  lemma AMillion()
    ensures PowerOfTen(TOTP_DIGITS) == MILLION
  {
    assert PowerOfTen(3) == 1000;
    assert PowerOfTen(4) == 10 * PowerOfTen(3);
    assert PowerOfTen(5) == 10 * PowerOfTen(4);
  }

  lemma ValueOfFour(b: Bytes)
    requires |b| == 4
    ensures Value(b) == ((b[0] as int * 256 + b[1] as int) * 256 + b[2] as int) * 256 + b[3] as int
  {
    assert b[..3][..2] == b[..2] && b[..2][..1] == b[..1] && b[..1][..0] == [];
    assert Value(b[..1]) == b[0] as int;
    assert Value(b[..2]) == Value(b[..1]) * 256 + b[1] as int;
    assert Value(b[..3]) == Value(b[..2]) * 256 + b[2] as int;
  }

  /** The truncation: the big-endian number at the offset, without its top bit. */
  lemma TruncatedIs(d: Digest)
    ensures var o := d[19] as int % 16; Truncated(d) == Value(d[o..o + 4]) % 0x8000_0000
  {
    var o := d[19] as int % 16;
    ValueOfFour(d[o..o + 4]);
    var first, rest := d[o] as int, (d[o + 1] as int * 256 + d[o + 2] as int) * 256 + d[o + 3] as int;
    assert Value(d[o..o + 4]) == first * 0x100_0000 + rest;
    assert first == first / 128 * 128 + first % 128;
    assert Value(d[o..o + 4]) == first / 128 * 0x8000_0000 + (first % 128 * 0x100_0000 + rest);
  }

  /**
   * Every code is exactly six digits, leading zeros kept, and reads back as the
   * truncated digest modulo a million.
   */
  lemma CodesAreSixDigits(hmac: Hmac, secret: Bytes, counter: nat)
    ensures IsCode(CodeAt(hmac, secret, counter))
    ensures var d := hmac(secret, BigEndian(counter, 8)); var o := d[19] as int % 16;
            ParseDigits(CodeAt(hmac, secret, counter)) == Some(Value(d[o..o + 4]) % 0x8000_0000 % 1_000_000)
  {
    AMillion();
    TruncatedIs(hmac(secret, BigEndian(counter, 8)));
    ZeroPaddedReadsBack(Truncated(hmac(secret, BigEndian(counter, 8))) % MILLION, TOTP_DIGITS, MILLION);
  }

  /**
   * A code made at one time is accepted at another whenever their steps differ by
   * at most the window; and when they differ by more, only if it happens to be
   * the code of a step inside.
   */
  lemma AcceptedAcrossTheWindow(hmac: Hmac, secret: Bytes, made: nat, at: int, window: nat)
    requires Step(made) < COUNTER_LIMIT
    ensures var code := TotpCode(hmac, Some(secret), made);
            && code.Some?
            && (Accepts(hmac, Some(secret), code.value, at, window) <==>
                || at / 30 - window <= made / 30 <= at / 30 + window
                || exists k: nat :: Step(at) - window <= k <= Step(at) + window && k < COUNTER_LIMIT
                                    && k != Step(made) && CodeAt(hmac, secret, k) == code.value)
  {
    CodesAreSixDigits(hmac, secret, Step(made));
  }

  lemma {:induction false} PackedReadsBack(n: nat, width: nat, bound: nat)
    requires n < bound && bound == PowerOf256(width)
    ensures Value(BigEndian(n, width)) == n
    decreases width
  {
    if width > 0 {
      PackedReadsBack(n / 256, width - 1, PowerOf256(width - 1));
      var b := BigEndian(n, width);
      assert b[..width - 1] == BigEndian(n / 256, width - 1);
    }
  }

  function PowerOf256(n: nat): nat {
    if n == 0 then 1 else 256 * PowerOf256(n - 1)
  }

  /** Different steps feed different messages to the HMAC, up to the largest counter that packs. */
  lemma CountersPackApart(a: nat, b: nat)
    requires a < b < COUNTER_LIMIT
    ensures BigEndian(a, 8) != BigEndian(b, 8)
  {
    assert PowerOf256(2) == 0x1_0000;
    assert PowerOf256(4) == 0x1_0000_0000 by {
      assert PowerOf256(3) == 256 * PowerOf256(2);
    }
    assert PowerOf256(6) == 0x1_0000_0000_0000 by {
      assert PowerOf256(5) == 256 * PowerOf256(4);
    }
    assert PowerOf256(8) == COUNTER_LIMIT by {
      assert PowerOf256(7) == 256 * PowerOf256(6);
    }
    PackedReadsBack(a, 8, COUNTER_LIMIT);
    PackedReadsBack(b, 8, COUNTER_LIMIT);
  }
}

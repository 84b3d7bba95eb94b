/** What the lengths in module Text measure: the one encoding of a character that section 4
    of RFC 3629 and section 2.1 of RFC 2781 allow. */
module Encodings {
  import opened Text

  predicate IsTail(b: nat) {
    0x80 <= b <= 0xbf
  }

  /** The byte sequences allowed for one character. */
  predicate IsUtf8(b: seq<nat>) {
    || (|b| == 1 && b[0] <= 0x7f)
    || (|b| == 2 && 0xc2 <= b[0] <= 0xdf && IsTail(b[1]))
    || (|b| == 3 && IsTail(b[2]) &&
        (|| (b[0] == 0xe0 && 0xa0 <= b[1] <= 0xbf)
         || (b[0] == 0xed && 0x80 <= b[1] <= 0x9f)
         || (0xe1 <= b[0] <= 0xef && b[0] != 0xed && IsTail(b[1]))))
    || (|b| == 4 && IsTail(b[2]) && IsTail(b[3]) &&
        (|| (b[0] == 0xf0 && 0x90 <= b[1] <= 0xbf)
         || (0xf1 <= b[0] <= 0xf3 && IsTail(b[1]))
         || (b[0] == 0xf4 && 0x80 <= b[1] <= 0x8f)))
  }

  /** The payload bits of lead and tails, put together. */
  function Utf8Value(b: seq<nat>): int
    requires IsUtf8(b)
  {
    if |b| == 1 then b[0]
    else if |b| == 2 then (b[0] - 0xc0) * 0x40 + (b[1] - 0x80)
    else if |b| == 3 then (b[0] - 0xe0) * 0x1000 + (b[1] - 0x80) * 0x40 + (b[2] - 0x80)
    else (b[0] - 0xf0) * 0x4_0000 + (b[1] - 0x80) * 0x1000 + (b[2] - 0x80) * 0x40 + (b[3] - 0x80)
  }

  /** How long an encoding is tells what values it can have. */
  lemma Utf8Range(b: seq<nat>)
    requires IsUtf8(b)
    ensures |b| == 1 ==> Utf8Value(b) <= 0x7f
    ensures |b| == 2 ==> 0x80 <= Utf8Value(b) <= 0x7ff
    ensures |b| == 3 ==> 0x800 <= Utf8Value(b) <= 0xffff
    ensures |b| == 4 ==> 0x1_0000 <= Utf8Value(b)
    ensures 1 <= |b| <= 4
  {
  }

  function EncodeUtf8(c: char): seq<nat> {
    var n := c as int;
    if n < 0x80 then [n]
    else if n < 0x800 then [0xc0 + n / 0x40, 0x80 + n % 0x40]
    else if n < 0x1_0000 then [0xe0 + n / 0x1000, 0x80 + n / 0x40 % 0x40, 0x80 + n % 0x40]
    else [0xf0 + n / 0x4_0000, 0x80 + n / 0x1000 % 0x40, 0x80 + n / 0x40 % 0x40, 0x80 + n % 0x40]
  }

  /** A number in digits to the base 64. */
  lemma Digits(n: nat)
    ensures n == n / 0x40 * 0x40 + n % 0x40
    ensures n / 0x40 == n / 0x1000 * 0x40 + n / 0x40 % 0x40
    ensures n / 0x1000 == n / 0x4_0000 * 0x40 + n / 0x1000 % 0x40
  {
  }

  lemma EncodesLong(c: char)
    requires c as int >= 0x1_0000
    ensures IsUtf8(EncodeUtf8(c)) && Utf8Value(EncodeUtf8(c)) == c as int
  {
    Digits(c as int);
  }

  lemma EncodesShort(c: char)
    requires c as int < 0x1_0000
    ensures IsUtf8(EncodeUtf8(c)) && Utf8Value(EncodeUtf8(c)) == c as int
  {
    Digits(c as int);
  }

  /** Every character has an encoding, and all it has are of the length that is counted. */
  lemma Utf8LenIsEncoded(c: char)
    ensures exists b :: IsUtf8(b) && Utf8Value(b) == c as int
    ensures forall b :: IsUtf8(b) && Utf8Value(b) == c as int ==> |b| == Utf8Len(c)
  {
    hide IsUtf8, Utf8Value, EncodeUtf8;
    if c as int < 0x1_0000 {
      EncodesShort(c);
    } else {
      EncodesLong(c);
    }
    forall b | IsUtf8(b) && Utf8Value(b) == c as int
      ensures |b| == Utf8Len(c)
    {
      Utf8Range(b);
    }
  }

  /** One unit that is no surrogate, or a high surrogate and a low one. */
  predicate IsUtf16(u: seq<nat>) {
    || (|u| == 1 && (u[0] < 0xd800 || 0xe000 <= u[0] < 0x1_0000))
    || (|u| == 2 && 0xd800 <= u[0] < 0xdc00 && 0xdc00 <= u[1] < 0xe000)
  }

  function Utf16Value(u: seq<nat>): int
    requires IsUtf16(u)
  {
    if |u| == 1 then u[0] else 0x1_0000 + (u[0] - 0xd800) * 0x400 + (u[1] - 0xdc00)
  }

  lemma Utf16LenIsEncoded(c: char)
    ensures exists u :: IsUtf16(u) && Utf16Value(u) == c as int
    ensures forall u :: IsUtf16(u) && Utf16Value(u) == c as int ==> |u| == Utf16Len(c)
  {
    var n := c as int;
    var u: seq<nat> :=
      if n < 0x1_0000 then [n] else [0xd800 + (n - 0x1_0000) / 0x400, 0xdc00 + (n - 0x1_0000) % 0x400];
    assert IsUtf16(u) && Utf16Value(u) == n;
  }
}

// String::from_utf8: which byte strings are UTF-8.
module Utf8 {
  import opened Common

  // A continuation byte of a multi-byte UTF-8 sequence.
  predicate IsTail(b: Byte) {
    0x80 <= b <= 0xBF
  }

  // Length of the UTF-8 character at the front of s, or 0 when there is none (section 4 of RFC 3629).
  function Utf8Width(s: Bytes): (n: nat)
    requires s != []
    ensures n <= |s|
  {
    var b := s[0];
    if b <= 0x7F then 1
    else if 0xC2 <= b <= 0xDF && |s| >= 2 && IsTail(s[1]) then 2
    else if |s| >= 3 && IsTail(s[1]) && IsTail(s[2]) &&
            (if b == 0xE0 then 0xA0 <= s[1] else if b == 0xED then s[1] <= 0x9F else 0xE1 <= b <= 0xEF) then 3
    else if |s| >= 4 && IsTail(s[1]) && IsTail(s[2]) && IsTail(s[3]) &&
            (if b == 0xF0 then 0x90 <= s[1] else if b == 0xF4 then s[1] <= 0x8F else 0xF1 <= b <= 0xF3) then 4
    else 0
  }

  predicate ValidUtf8(s: Bytes) {
    s == [] || (Utf8Width(s) > 0 && ValidUtf8(s[Utf8Width(s)..]))
  }

  // ----- The encoder it inverts -------------------------------------------------------------

  // A Unicode scalar value: a code point that is not a surrogate.
  type Scalar = c: int | 0 <= c < 0xD800 || 0xE000 <= c < 0x11_0000

  // The character's bits in groups of six, after a lead byte that tells how many groups there are.
  function EncodeScalar(c: Scalar): (s: Bytes)
    ensures s != []
  {
    if c < 0x80 then [c]
    else if c < 0x800 then [0xC0 + c / 0x40, 0x80 + c % 0x40]
    else if c < 0x1_0000 then [0xE0 + c / 0x1000, 0x80 + c / 0x40 % 0x40, 0x80 + c % 0x40]
    else [0xF0 + c / 0x4_0000, 0x80 + c / 0x1000 % 0x40, 0x80 + c / 0x40 % 0x40, 0x80 + c % 0x40]
  }

  function EncodeText(text: seq<Scalar>): Bytes {
    if text == [] then [] else EncodeScalar(text[0]) + EncodeText(text[1..])
  }

  lemma WidthOfEncoded(c: Scalar, tail: Bytes)
    ensures Utf8Width(EncodeScalar(c) + tail) == |EncodeScalar(c)|
  {
  }

  // Three groups of six bits, the last two given.
  lemma Groups(high: nat, mid: nat, low: nat)
    requires mid < 0x40 && low < 0x40
    ensures var c := high * 0x1000 + mid * 0x40 + low;
      c / 0x1000 == high && c / 0x40 % 0x40 == mid && c % 0x40 == low && c / 0x40 == high * 0x40 + mid
  {
  }

  lemma FrontOfThree(s: Bytes) returns (c: Scalar)
    requires s != [] && Utf8Width(s) == 3
    ensures s[..3] == EncodeScalar(c)
  {
    var b, b1, b2: int := s[0] - 0xE0, s[1] - 0x80, s[2] - 0x80;
    Groups(b, b1, b2);
    return b * 0x1000 + b1 * 0x40 + b2;
  }

  lemma FrontOfFour(s: Bytes) returns (c: Scalar)
    requires s != [] && Utf8Width(s) == 4
    ensures s[..4] == EncodeScalar(c)
  {
    var b, b1, b2, b3: int := s[0] - 0xF0, s[1] - 0x80, s[2] - 0x80, s[3] - 0x80;
    Groups(b * 0x40 + b1, b2, b3);
    return b * 0x4_0000 + b1 * 0x1000 + b2 * 0x40 + b3;
  }

  // The character that the front of s encodes.
  lemma ScalarInFront(s: Bytes) returns (c: Scalar)
    requires s != [] && Utf8Width(s) > 0
    ensures s[..Utf8Width(s)] == EncodeScalar(c)
  {
    match Utf8Width(s)
    case 1 =>
      c := s[0];
    case 2 =>
      var b, b1: int := s[0] - 0xC0, s[1] - 0x80;
      c := b * 0x40 + b1;
    case 3 =>
      c := FrontOfThree(s);
    case _ =>
      c := FrontOfFour(s);
  }

  lemma {:induction false} TextIsValid(text: seq<Scalar>)
    ensures ValidUtf8(EncodeText(text))
  {
    if text != [] {
      TextIsValid(text[1..]);
      WidthOfEncoded(text[0], EncodeText(text[1..]));
      var s := EncodeText(text);
      assert s[Utf8Width(s)..] == EncodeText(text[1..]);
    }
  }

  lemma {:induction false} ValidIsText(s: Bytes) returns (text: seq<Scalar>)
    requires ValidUtf8(s)
    ensures EncodeText(text) == s
  {
    if s == [] {
      text := [];
    } else {
      var n := Utf8Width(s);
      var c := ScalarInFront(s);
      var tail := ValidIsText(s[n..]);
      text := [c] + tail;
      assert s == s[..n] + s[n..];
    }
  }

  // The byte strings accepted are exactly the encodings of lists of scalar values: no overlong form, no surrogate,
  // nothing above 0x10FFFF, no stray or missing continuation byte.
  lemma ValidIffText(s: Bytes)
    ensures ValidUtf8(s) <==> exists text: seq<Scalar> :: EncodeText(text) == s
  {
    if ValidUtf8(s) {
      var text := ValidIsText(s);
    }
    forall text: seq<Scalar> | EncodeText(text) == s ensures ValidUtf8(s) {
      TextIsValid(text);
    }
  }

  // ASCII text is UTF-8.
  lemma {:induction false} AsciiIsUtf8(s: Bytes)
    requires forall b <- s :: b <= 0x7F
    ensures ValidUtf8(s)
  {
    if s != [] {
      assert s[0] in s;
      assert forall b <- s[1..] :: b in s;
      AsciiIsUtf8(s[1..]);
    }
  }
}

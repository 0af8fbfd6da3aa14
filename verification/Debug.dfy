// The byte-string printer BsDebug of src/server.rs.
module Debug {
  import opened Common

  const QUOTE: Byte := 0x22
  const BACKSLASH: Byte := 0x5C
  const LETTER_B: Byte := 0x62
  const LETTER_X: Byte := 0x78

  predicate IsPrintable(c: Byte) {
    0x20 <= c < 0x7F
  }

  function HexDigit(n: nat): Byte
    requires n < 16
  {
    if n < 10 then 0x30 + n else 0x61 + (n - 10)
  }

  function FromHexDigit(c: Byte): Option<nat> {
    if 0x30 <= c <= 0x39 then Some(c - 0x30) else if 0x61 <= c <= 0x66 then Some(c - 0x61 + 10) else None
  }

  // A printable byte stands for itself, any other becomes \xHH.
  function EscapeByte(c: Byte): Bytes {
    if IsPrintable(c) then [c] else [BACKSLASH, LETTER_X, HexDigit(c / 16), HexDigit(c % 16)]
  }

  function Escape(s: Bytes): Bytes {
    if s == [] then [] else EscapeByte(s[0]) + Escape(s[1..])
  }

  method Fmt(s: Bytes) returns (out: Bytes)
    ensures out == Ascii("b\"") + Escape(s) + Ascii("\"")
  {
    out := [LETTER_B, QUOTE];
    for i := 0 to |s|
      invariant out + Escape(s[i..]) == [LETTER_B, QUOTE] + Escape(s)
    {
      var c := s[i];
      assert s[i..][1..] == s[i + 1..];
      Assoc(out, EscapeByte(c), Escape(s[i + 1..]));
      if 0x20 <= c < 0x7F {
        out := out + [c];
      } else {
        out := out + [BACKSLASH, LETTER_X, HexDigit(c / 16), HexDigit(c % 16)];
      }
    }
    assert out + [] == out;
    out := out + [QUOTE];
    PrintedByte(QUOTE);
  }

  // The sixteen digits, the printable range and the text around an escape, in so many characters.
  lemma PrintedByte(c: Byte)
    ensures ' ' as int <= c <= '~' as int ==> EscapeByte(c) == [c]
    ensures c < ' ' as int || '~' as int < c ==>
      var digits := Ascii("0123456789abcdef");
      EscapeByte(c) == Ascii("\\x") + [digits[c / 16], digits[c % 16]]
    ensures [LETTER_B, QUOTE] == Ascii("b\"") && [QUOTE] == Ascii("\"")
  {
    assert Ascii("\\x") == [BACKSLASH, LETTER_X];
  }

  // \xHH with lower-case digits at the front of s.
  predicate StartsEscape(s: Bytes) {
    |s| >= 4 && s[0] == BACKSLASH && s[1] == LETTER_X && FromHexDigit(s[2]).Some? && FromHexDigit(s[3]).Some?
  }

  // Reads \xHH as a byte and everything else as itself.
  function Unescape(s: Bytes): Bytes {
    if s == [] then []
    else if StartsEscape(s) then [FromHexDigit(s[2]).value * 16 + FromHexDigit(s[3]).value] + Unescape(s[4..])
    else [s[0]] + Unescape(s[1..])
  }

  lemma {:induction false} OnlyPrintable(s: Bytes)
    ensures forall c <- Escape(s) :: 0x20 <= c < 0x7F
  {
    if s != [] {
      OnlyPrintable(s[1..]);
      assert forall c <- EscapeByte(s[0]) :: IsPrintable(c);
    }
  }

  // Somewhere in s there is text that looks like an escape.
  predicate ContainsEscape(s: Bytes) {
    s != [] && (StartsEscape(s) || ContainsEscape(s[1..]))
  }

  lemma HexRoundTrip(c: Byte)
    ensures FromHexDigit(HexDigit(c / 16)) == Some(c / 16) && FromHexDigit(HexDigit(c % 16)) == Some(c % 16)
    ensures c / 16 * 16 + c % 16 == c
  {
  }

  lemma UnescapeEscapedByte(c: Byte, tail: Bytes)
    requires !IsPrintable(c)
    ensures StartsEscape(EscapeByte(c) + tail)
    ensures Unescape(EscapeByte(c) + tail) == [c] + Unescape(tail)
  {
    HexRoundTrip(c);
    assert (EscapeByte(c) + tail)[4..] == tail;
  }

  // The first bytes of an escaped string look like an escape after a raw backslash just when those of the string do.
  lemma EscapeLooksLike(s: Bytes)
    requires s != [] && IsPrintable(s[0])
    ensures StartsEscape(Escape(s)) <==> StartsEscape(s)
  {
    if s[0] == BACKSLASH && |s| > 1 {
      SecondByte(s);
    }
  }

  lemma SecondByte(s: Bytes)
    requires |s| > 1 && s[0] == BACKSLASH
    ensures StartsEscape(Escape(s)) <==> StartsEscape(s)
  {
    var t := s[1..];
    assert Escape(s) == [BACKSLASH] + Escape(t);
    if t[0] == LETTER_X && |t| > 1 {
      var u := t[1..];
      assert Escape(t) == [LETTER_X] + Escape(u);
      if FromHexDigit(u[0]).Some? && |u| > 1 {
        assert Escape(u) == [u[0]] + Escape(u[1..]);
      }
    }
  }

  // Text that looks like an escape is printed as it stands, and comes back as one byte.
  lemma EscapedText(s: Bytes)
    requires StartsEscape(s)
    ensures |Unescape(Escape(s))| == 1 + |Unescape(Escape(s[4..]))|
  {
    var s1, s2, s3 := s[1..], s[2..], s[3..];
    assert Escape(s) == [s[0]] + Escape(s1);
    assert s1[1..] == s2 && Escape(s1) == [s[1]] + Escape(s2);
    assert s2[1..] == s3 && Escape(s2) == [s[2]] + Escape(s3);
    assert s3[1..] == s[4..] && Escape(s3) == [s[3]] + Escape(s[4..]);
    assert Escape(s) == s[..4] + Escape(s[4..]);
    assert Escape(s)[4..] == Escape(s[4..]);
  }

  // The printer can be undone exactly on the inputs that contain no text of the form \xHH already:
  // a backslash is printed raw, so such text comes back as the byte it names.
  lemma {:induction false} RoundTripIff(s: Bytes)
    ensures |Unescape(Escape(s))| <= |s|
    ensures Unescape(Escape(s)) == s <==> !ContainsEscape(s)
  {
    if s != [] {
      var c, tail := s[0], s[1..];
      if !IsPrintable(c) {
        UnescapeEscapedByte(c, Escape(tail));
        RoundTripIff(tail);
        assert !StartsEscape(s);
      } else {
        EscapeLooksLike(s);
        if StartsEscape(s) {
          EscapedText(s);
          RoundTripIff(s[4..]);
        } else {
          assert Escape(s)[1..] == Escape(tail);
          RoundTripIff(tail);
        }
      }
    }
  }
}

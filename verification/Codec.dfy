// The Length-Prefixed-Message codec of src/grpc.rs, on a host of either byte order.
module Codec {
  import opened Common

  type U32 = w: int | 0 <= w < 0x1_0000_0000

  const HEADER_LEN := 5
  const U32_LIMIT := 0x1_0000_0000

  // ----- u32 values in memory ---------------------------------------------------------------

  datatype Host = LittleEndian | BigEndian

  // The four base-256 digits of a word, most significant first.
  function Digits(w: U32): (ds: Bytes)
    ensures |ds| == 4
  {
    [w / 0x1000000, w / 0x10000 % 0x100, w / 0x100 % 0x100, w % 0x100]
  }

  function Value(ds: Bytes): U32
    requires |ds| == 4
  {
    var high: int, upper: int, lower: int, low: int := ds[0], ds[1], ds[2], ds[3];
    high * 0x1000000 + upper * 0x10000 + lower * 0x100 + low
  }

  function Reversed(ds: Bytes): (rs: Bytes)
    requires |ds| == 4
    ensures |rs| == 4
  {
    [ds[3], ds[2], ds[1], ds[0]]
  }

  // The bytes a u32 occupies in memory; mem::transmute to [u8; 4].
  function Store(host: Host, w: U32): (m: Bytes)
    ensures |m| == 4
  {
    if host.BigEndian? then Digits(w) else Reversed(Digits(w))
  }

  // The u32 whose memory holds the bytes m; ptr::copy_nonoverlapping into a u32.
  function Load(host: Host, m: Bytes): U32
    requires |m| == 4
  {
    if host.BigEndian? then Value(m) else Value(Reversed(m))
  }

  // u32::to_be: the identity on a big-endian host, swap_bytes on a little-endian one.
  function ToBe(host: Host, w: U32): U32 {
    if host.BigEndian? then w else Value(Reversed(Digits(w)))
  }

  lemma ValueOfDigits(w: U32)
    ensures Value(Digits(w)) == w
  {
    assert w / 0x100 == w / 0x10000 * 0x100 + w / 0x100 % 0x100;
    assert w / 0x10000 == w / 0x1000000 * 0x100 + w / 0x10000 % 0x100;
  }

  lemma DigitsOfValue(ds: Bytes)
    requires |ds| == 4
    ensures Digits(Value(ds)) == ds
  {
    var w := Value(ds);
    var high: int, upper: int, lower: int := ds[0], ds[1], ds[2];
    assert w / 0x100 == high * 0x10000 + upper * 0x100 + lower;
    assert w / 0x10000 == high * 0x100 + upper;
    assert w / 0x1000000 == high;
  }

  // The four bytes whose value is w; there is exactly one such string.
  ghost function LengthField(w: U32): (ds: Bytes)
    ensures |ds| == 4 && Value(ds) == w
  {
    ValueOfDigits(w);
    var ds: Bytes :| |ds| == 4 && Value(ds) == w;
    ds
  }

  lemma ValueInjective(ds: Bytes, es: Bytes)
    requires |ds| == |es| == 4 && Value(ds) == Value(es)
    ensures ds == es
  {
    DigitsOfValue(ds);
    DigitsOfValue(es);
  }

  // Whatever the host, the length written on the wire is in big-endian digits and read back as such.
  lemma LengthIsBigEndian(host: Host, w: U32, ds: Bytes)
    requires |ds| == 4
    ensures Store(host, ToBe(host, w)) == Digits(w) == LengthField(w)
    ensures ToBe(host, Load(host, ds)) == Value(ds)
    ensures var most: int, second: int, third: int, least: int := ds[0], ds[1], ds[2], ds[3];
      Value(ds) == ((most * 256 + second) * 256 + third) * 256 + least
  {
    DigitsOfValue(Reversed(Digits(w)));
    DigitsOfValue(Reversed(ds));
    DigitsOfValue(LengthField(w));
  }

  // ----- Frames -----------------------------------------------------------------------------

  datatype Parsed = Incomplete | Frame(payload: Bytes, consumed: nat) | Refused(reason: PanicReason)

  // The wire image of one message: flag 0, the length truncated to 32 bits, the payload.
  ghost function Encode(message: Bytes): (s: Bytes)
    ensures |s| == HEADER_LEN + |message|
  {
    [0] + LengthField(|message| % U32_LIMIT) + message
  }

  // The first frame of s, read without reference to a host.
  function Parse(s: Bytes): (r: Parsed)
    ensures r.Frame? ==> HEADER_LEN <= r.consumed <= |s| && r.payload == s[HEADER_LEN..r.consumed]
  {
    if |s| < HEADER_LEN then Incomplete
    else if s[0] == 1 then Refused(CompressionNotImplemented)
    else if s[0] != 0 then Refused(UnknownCompressionFlag)
    else
      var end := HEADER_LEN + Value(s[1..5]);
      if end > |s| then Incomplete else Frame(s[HEADER_LEN..end], end)
  }

  function ParseFrame(host: Host, stream: Bytes): (r: Parsed)
    ensures r == Parse(stream)
  {
    if |stream| < HEADER_LEN then Incomplete
    else match stream[0] {
      case 0 =>
        LengthIsBigEndian(host, 0, stream[1..5]);
        var len := ToBe(host, Load(host, stream[1..5]));
        var end := len + HEADER_LEN;
        if end > |stream| then Incomplete else Frame(stream[HEADER_LEN..end], end)
      case 1 => Refused(CompressionNotImplemented)
      case _ => Refused(UnknownCompressionFlag)
    }
  }

  function ParseFrameCompletely(host: Host, stream: Bytes): Outcome<Option<Bytes>> {
    match ParseFrame(host, stream)
    case Frame(bytes, pos) => Done(if pos == |stream| then Some(bytes) else None)
    case Incomplete => Done(None)
    case Refused(reason) => Panic(reason)
  }

  // Appends one frame to the vector stream and returns the vector's new contents.
  method WriteFrame(host: Host, stream: Bytes, frame: Bytes) returns (out: Bytes)
    ensures out == stream + Encode(frame)
  {
    out := stream + [0];
    var lenRaw := Store(host, ToBe(host, |frame| % U32_LIMIT));
    LengthIsBigEndian(host, |frame| % U32_LIMIT, lenRaw);
    out := out + lenRaw;
    out := out + frame;
  }

  // ----- Properties -------------------------------------------------------------------------

  lemma ParseEncoded(message: Bytes, tail: Bytes)
    requires |message| < U32_LIMIT
    ensures Parse(Encode(message) + tail) == Frame(message, HEADER_LEN + |message|)
  {
    var s := Encode(message) + tail;
    assert s[1..5] == LengthField(|message|);
    assert s[HEADER_LEN..HEADER_LEN + |message|] == message;
  }

  lemma EncodeByField(message: Bytes, field: Bytes)
    requires |field| == 4 && |message| == Value(field)
    ensures Encode(message) == [0] + field + message
  {
    ValueInjective(field, LengthField(|message|));
  }

  lemma ParsedIsEncoded(s: Bytes)
    requires Parse(s).Frame?
    ensures var Frame(message, n) := Parse(s);
      |message| < U32_LIMIT && n == HEADER_LEN + |message| && s == Encode(message) + s[n..]
  {
    var Frame(message, n) := Parse(s);
    EncodeByField(message, s[1..5]);
    assert s == [0] + s[1..5] + message + s[n..];
  }

  // A frame is parsed off the front exactly when its encoding is a prefix of the input.
  lemma ParseIffEncodedPrefix(s: Bytes, message: Bytes, n: nat)
    ensures Parse(s) == Frame(message, n)
       <==> |message| < U32_LIMIT && n == HEADER_LEN + |message| && Encode(message) <= s
  {
    if Parse(s) == Frame(message, n) {
      ParsedIsEncoded(s);
    }
    if |message| < U32_LIMIT && Encode(message) <= s {
      var tail := s[|Encode(message)|..];
      assert s == Encode(message) + tail;
      ParseEncoded(message, tail);
    }
  }

  // A frame is refused exactly when its whole header is there and the flag is not 0.
  lemma RefusedIffFlagged(host: Host, s: Bytes)
    ensures ParseFrame(host, s) == Refused(CompressionNotImplemented) <==> |s| >= HEADER_LEN && s[0] == 1
    ensures ParseFrame(host, s) == Refused(UnknownCompressionFlag) <==> |s| >= HEADER_LEN && s[0] > 1
    ensures ParseFrame(host, s).Refused? ==> |s| >= HEADER_LEN && s[0] != 0
  {
  }

  // A successful parse, or a refused flag, does not depend on bytes that arrive later.
  lemma ParseStable(s: Bytes, later: Bytes)
    requires !Parse(s).Incomplete?
    ensures Parse(s + later) == Parse(s)
  {
    assert (s + later)[1..5] == s[1..5];
    if Parse(s).Frame? {
      var n := Parse(s).consumed;
      assert (s + later)[HEADER_LEN..n] == s[HEADER_LEN..n];
    }
  }

  lemma ProperPrefixIsIncomplete(s: Bytes, message: Bytes)
    requires |message| < U32_LIMIT && s < Encode(message)
    ensures Parse(s).Incomplete?
  {
    var missing := Encode(message)[|s|..];
    assert s + missing == Encode(message) == Encode(message) + [];
    ParseEncoded(message, []);
    if !Parse(s).Incomplete? {
      ParseStable(s, missing);
    }
  }

  lemma MissingBytes(s: Bytes) returns (message: Bytes)
    requires |s| >= HEADER_LEN && Parse(s).Incomplete?
    ensures |message| < U32_LIMIT && s < Encode(message)
  {
    var field, start := s[1..5], s[HEADER_LEN..];
    var missing: Bytes := seq(Value(field) - |start|, _ => 0);
    message := start + missing;
    EncodeByField(message, field);
    assert s == [0] + field + start;
    Assoc([0] + field, start, missing);
  }

  // Short input aside, a parse is incomplete exactly when further bytes can complete a frame.
  lemma IncompleteIffCompletable(s: Bytes)
    ensures Parse(s).Incomplete?
       <==> |s| < HEADER_LEN || exists message: Bytes :: |message| < U32_LIMIT && s < Encode(message)
  {
    if |s| >= HEADER_LEN && Parse(s).Incomplete? {
      var message := MissingBytes(s);
    }
    forall message: Bytes | |message| < U32_LIMIT && s < Encode(message) ensures Parse(s).Incomplete? {
      ProperPrefixIsIncomplete(s, message);
    }
  }

  lemma ParseCompletelyIffEncoded(host: Host, s: Bytes, message: Bytes)
    ensures ParseFrameCompletely(host, s) == Done(Some(message)) <==> |message| < U32_LIMIT && s == Encode(message)
  {
    var parsed := ParseFrame(host, s);
    ParseIffEncodedPrefix(s, message, |s|);
    if |message| < U32_LIMIT && s == Encode(message) {
      ParseEncoded(message, []);
      assert s == Encode(message) + [];
    }
  }

  // parse_frame_completely panics exactly on a refused flag after which a header is whole, and gives nothing on any
  // other input that is not the encoding of one short message.
  lemma CompletelyOtherwise(host: Host, s: Bytes)
    ensures ParseFrameCompletely(host, s) == Panic(CompressionNotImplemented) <==> |s| >= 5 && s[0] == 1
    ensures ParseFrameCompletely(host, s) == Panic(UnknownCompressionFlag) <==> |s| >= 5 && s[0] > 1
    ensures ParseFrameCompletely(host, s).Panic? <==> |s| >= 5 && s[0] != 0
    ensures ParseFrameCompletely(host, s) == Done(None) <==>
      (|s| < 5 || s[0] == 0) && forall message: Bytes | |message| < U32_LIMIT :: s != Encode(message)
  {
    RefusedIffFlagged(host, s);
    forall message: Bytes | |message| < U32_LIMIT && s == Encode(message)
      ensures ParseFrameCompletely(host, s) != Done(None)
    {
      ParseCompletelyIffEncoded(host, s, message);
    }
    match ParseFrameCompletely(host, s)
    case Done(Some(message)) =>
      ParseCompletelyIffEncoded(host, s, message);
    case _ =>
  }

  // The frames of the repository's own unit test.
  lemma KnownFrames(host: Host)
    ensures ParseFrame(host, []) == ParseFrame(host, Ascii("1")) == ParseFrame(host, Ascii("14sc")) == Incomplete
    ensures ParseFrame(host, [0, 0, 0, 0, 7, 0x0A, 5] + Ascii("wo")) == Incomplete
    ensures ParseFrame(host, [0, 0, 0, 0, 7, 0x0A, 5] + Ascii("world")) == Frame([0x0A, 5] + Ascii("world"), 12)
  {
    var s: Bytes := [0, 0, 0, 0, 7, 0x0A, 5] + Ascii("world");
    assert Value(s[1..5]) == 7;
    assert s[5..12] == [0x0A, 5] + Ascii("world");
  }

  // The bytes write_frame appends on a given host: flag, transmuted length, payload.
  function WireImage(host: Host, message: Bytes): (s: Bytes)
    ensures s == Encode(message)
  {
    LengthIsBigEndian(host, |message| % U32_LIMIT, LengthField(0));
    [0] + Store(host, ToBe(host, |message| % U32_LIMIT)) + message
  }

  // parse_frame_completely inverts write_frame, whatever the hosts at the two ends.
  lemma CodecBijection(writer: Host, reader: Host, s: Bytes, message: Bytes)
    ensures ParseFrameCompletely(reader, s) == Done(Some(message))
       <==> |message| < U32_LIMIT && s == WireImage(writer, message)
  {
    ParseCompletelyIffEncoded(reader, s, message);
  }

  // write_frame loses messages of 4 GiB or more: the length is truncated to 32 bits.
  lemma RoundTripIffShort(host: Host, message: Bytes)
    ensures ParseFrameCompletely(host, Encode(message)) == Done(Some(message)) <==> |message| < U32_LIMIT
    ensures var cut := |message| % U32_LIMIT; Parse(Encode(message)) == Frame(message[..cut], HEADER_LEN + cut)
  {
    var cut := |message| % U32_LIMIT;
    ParseCompletelyIffEncoded(host, Encode(message), message);
    assert message == message[..cut] + message[cut..];
    Assoc([0] + LengthField(cut), message[..cut], message[cut..]);
    ParseEncoded(message[..cut], message[cut..]);
  }
}

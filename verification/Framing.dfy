// Streams of frames: a byte string is a list of messages followed by a tail that starts no frame.
module Framing {
  import opened Common
  import opened Codec

  ghost function EncodeAll(messages: seq<Bytes>): Bytes {
    if messages == [] then [] else Encode(messages[0]) + EncodeAll(messages[1..])
  }

  datatype Split = Split(messages: seq<Bytes>, rest: Bytes)

  // All the frames at the front of s, and what is left when no further frame can be parsed.
  function SplitFrames(s: Bytes): Split
    decreases |s|
  {
    match Parse(s)
    case Frame(message, n) =>
      var tail := SplitFrames(s[n..]);
      Split([message] + tail.messages, tail.rest)
    case _ => Split([], s)
  }

  predicate AllShort(messages: seq<Bytes>) {
    forall m <- messages :: |m| < U32_LIMIT
  }

  function TotalLength(messages: seq<Bytes>): nat {
    if messages == [] then 0 else |messages[0]| + TotalLength(messages[1..])
  }

  lemma {:induction false} EncodeAllAppend(a: seq<Bytes>, b: seq<Bytes>)
    ensures EncodeAll(a + b) == EncodeAll(a) + EncodeAll(b)
  {
    if a == [] {
      assert a + b == b;
    } else {
      EncodeAllAppend(a[1..], b);
      assert (a + b)[1..] == a[1..] + b;
      Assoc(Encode(a[0]), EncodeAll(a[1..]), EncodeAll(b));
    }
  }

  lemma {:induction false} EncodeAllLength(ms: seq<Bytes>)
    ensures |EncodeAll(ms)| == HEADER_LEN * |ms| + TotalLength(ms)
  {
    if ms != [] {
      EncodeAllLength(ms[1..]);
    }
  }

  // Splitting loses no byte, and stops only where no frame starts.
  lemma {:induction false} SplitConserves(s: Bytes)
    ensures var sp := SplitFrames(s);
      && EncodeAll(sp.messages) + sp.rest == s
      && AllShort(sp.messages)
      && !Parse(sp.rest).Frame?
    decreases |s|
  {
    if Parse(s).Frame? {
      var Frame(message, n) := Parse(s);
      SplitConserves(s[n..]);
      ParsedIsEncoded(s);
      var tail := SplitFrames(s[n..]);
      assert ([message] + tail.messages)[1..] == tail.messages;
      Assoc(Encode(message), EncodeAll(tail.messages), tail.rest);
    }
  }

  // Splitting recovers exactly what was encoded.
  lemma {:induction false} SplitEncoded(messages: seq<Bytes>, tail: Bytes)
    requires AllShort(messages) && !Parse(tail).Frame?
    ensures SplitFrames(EncodeAll(messages) + tail) == Split(messages, tail)
  {
    if messages == [] {
      assert EncodeAll(messages) + tail == tail;
    } else {
      var m := messages[0];
      var s := EncodeAll(messages) + tail;
      var after := EncodeAll(messages[1..]) + tail;
      SplitEncoded(messages[1..], tail);
      assert messages == [m] + messages[1..];
      Assoc(Encode(m), EncodeAll(messages[1..]), tail);
      ParseEncoded(m, after);
      assert s[HEADER_LEN + |m|..] == after;
    }
  }

  // Two encodings with incomplete tails that give the same bytes are the same.
  lemma UniqueDecodability(ms: seq<Bytes>, tail: Bytes, ms': seq<Bytes>, tail': Bytes)
    requires AllShort(ms) && AllShort(ms')
    requires !Parse(tail).Frame? && !Parse(tail').Frame?
    requires EncodeAll(ms) + tail == EncodeAll(ms') + tail'
    ensures ms == ms' && tail == tail'
  {
    SplitEncoded(ms, tail);
    SplitEncoded(ms', tail');
  }

  // What a longer input splits into: the frames already there, then those of the leftover and the new bytes.
  lemma {:induction false} SplitAppend(a: Bytes, b: Bytes)
    ensures var first := SplitFrames(a); var second := SplitFrames(first.rest + b);
      SplitFrames(a + b) == Split(first.messages + second.messages, second.rest)
    decreases |a|
  {
    if Parse(a).Frame? {
      var n := Parse(a).consumed;
      ParseStable(a, b);
      SplitAppend(a[n..], b);
      assert (a + b)[n..] == a[n..] + b;
      var tail := SplitFrames(a[n..]);
      var second := SplitFrames(tail.rest + b);
      Assoc([Parse(a).payload], tail.messages, second.messages);
    } else {
      assert [] + SplitFrames(a + b).messages == SplitFrames(a + b).messages;
    }
  }
}

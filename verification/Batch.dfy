// The batch meaning of a request stream: decode the whole byte string, then map the handler over it.
module Batch {
  import opened Common
  import opened Codec
  import opened Framing
  import opened Method

  // One completed dispatch: the path in force, the message, and the handler's reply.
  datatype Dispatch = Dispatch(path: Bytes, message: Bytes, reply: Bytes)

  ghost function Messages(log: seq<Dispatch>): seq<Bytes> {
    seq(|log|, i requires 0 <= i < |log| => log[i].message)
  }

  ghost function Replies(log: seq<Dispatch>): seq<Bytes> {
    seq(|log|, i requires 0 <= i < |log| => log[i].reply)
  }

  datatype Handled = Handled(log: seq<Dispatch>, outcome: Outcome<()>)

  // The handler mapped over the messages in order, up to the first panic.
  ghost function HandleAll(service: Service, path: Bytes, messages: seq<Bytes>): (h: Handled)
    ensures |h.log| <= |messages|
    ensures h.outcome.Done? ==> |h.log| == |messages|
  {
    if messages == [] then Handled([], Done(()))
    else match HandleMethod(service, path, messages[0]) {
      case Panic(reason) => Handled([], Panic(reason))
      case Done(reply) =>
        var tail := HandleAll(service, path, messages[1..]);
        Handled([Dispatch(path, messages[0], reply)] + tail.log, tail.outcome)
    }
  }

  // What a request byte string amounts to: the dispatches made, the bytes left unread, and how it ended.
  datatype Batch = Batch(log: seq<Dispatch>, rest: Bytes, outcome: Outcome<()>)

  ghost function TailOutcome(rest: Bytes): Outcome<()> {
    match Parse(rest)
    case Refused(reason) => Panic(reason)
    case _ => Done(())
  }

  ghost function RunBatch(service: Service, path: Bytes, s: Bytes): Batch {
    var sp := SplitFrames(s);
    var h := HandleAll(service, path, sp.messages);
    if h.outcome.Panic? then Batch(h.log, EncodeAll(sp.messages[|h.log|..]) + sp.rest, h.outcome)
    else Batch(h.log, sp.rest, TailOutcome(sp.rest))
  }

  // The dispatches of first, then those of second, which takes over where first stopped.
  function Then(first: seq<Dispatch>, second: Batch): Batch {
    Batch(first + second.log, second.rest, second.outcome)
  }

  // ----- One iteration of the processing loop -----------------------------------------------

  lemma BatchStops(service: Service, path: Bytes, s: Bytes)
    requires !Parse(s).Frame?
    ensures RunBatch(service, path, s) == Batch([], s, TailOutcome(s))
  {
  }

  lemma BatchStep(service: Service, path: Bytes, s: Bytes)
    requires Parse(s).Frame?
    ensures var Frame(message, n) := Parse(s);
      RunBatch(service, path, s) ==
        match HandleMethod(service, path, message)
        case Panic(reason) => Batch([], s, Panic(reason))
        case Done(reply) => Then([Dispatch(path, message, reply)], RunBatch(service, path, s[n..]))
  {
    var Frame(message, n) := Parse(s);
    var sp := SplitFrames(s);
    var tail := SplitFrames(s[n..]);
    assert sp.messages[1..] == tail.messages;
    match HandleMethod(service, path, message)
    case Panic(reason) =>
      SplitConserves(s);
      assert sp.messages[0..] == sp.messages;
    case Done(reply) =>
      var h := HandleAll(service, path, tail.messages);
      assert sp.messages[1 + |h.log|..] == tail.messages[|h.log|..];
  }

  lemma ThenStep(done: seq<Dispatch>, d: Dispatch, b: Batch)
    ensures Then(done, Then([d], b)) == Then(done + [d], b)
  {
    Assoc(done, [d], b.log);
  }

  lemma RepliesAppend(a: seq<Dispatch>, b: seq<Dispatch>)
    ensures Replies(a + b) == Replies(a) + Replies(b)
    ensures EncodeAll(Replies(a + b)) == EncodeAll(Replies(a)) + EncodeAll(Replies(b))
  {
    assert Replies(a + b) == Replies(a) + Replies(b);
    EncodeAllAppend(Replies(a), Replies(b));
  }

  lemma MessagesAppend(a: seq<Dispatch>, b: seq<Dispatch>)
    ensures Messages(a + b) == Messages(a) + Messages(b)
    ensures EncodeAll(Messages(a + b)) == EncodeAll(Messages(a)) + EncodeAll(Messages(b))
  {
    assert Messages(a + b) == Messages(a) + Messages(b);
    EncodeAllAppend(Messages(a), Messages(b));
  }

  lemma OneReply(d: Dispatch)
    ensures EncodeAll(Replies([d])) == Encode(d.reply)
  {
    assert Replies([d]) == [d.reply];
    assert EncodeAll([d.reply]) == Encode(d.reply) + [];
  }

  // Answering one more message appends one encoded reply.
  lemma AnswerStep(answered: Bytes, done: seq<Dispatch>, d: Dispatch)
    ensures answered + EncodeAll(Replies(done + [d])) == (answered + EncodeAll(Replies(done))) + Encode(d.reply)
  {
    RepliesAppend(done, [d]);
    OneReply(d);
    Assoc(answered, EncodeAll(Replies(done)), Encode(d.reply));
  }

  // ----- Appending input --------------------------------------------------------------------

  lemma {:induction false} HandleAllAppend(service: Service, path: Bytes, a: seq<Bytes>, b: seq<Bytes>)
    ensures var first := HandleAll(service, path, a); var second := HandleAll(service, path, b);
      HandleAll(service, path, a + b) ==
        if first.outcome.Panic? then first else Handled(first.log + second.log, second.outcome)
  {
    if a == [] {
      assert a + b == b;
    } else {
      HandleAllAppend(service, path, a[1..], b);
      assert (a + b)[1..] == a[1..] + b;
    }
  }

  lemma LeftoverAppend(failing: seq<Bytes>, rest: Bytes, b: Bytes)
    ensures var more := SplitFrames(rest + b);
      EncodeAll(failing + more.messages) + more.rest == (EncodeAll(failing) + rest) + b
  {
    var more := SplitFrames(rest + b);
    SplitConserves(rest + b);
    EncodeAllAppend(failing, more.messages);
    Assoc(EncodeAll(failing), EncodeAll(more.messages), more.rest);
    Assoc(EncodeAll(failing), rest, b);
  }

  // Running on a longer input continues from where the shorter one stopped, unless that one panicked.
  lemma BatchAppend(service: Service, path: Bytes, a: Bytes, b: Bytes)
    ensures var first := RunBatch(service, path, a);
      RunBatch(service, path, a + b) ==
        if first.outcome.Panic? then Batch(first.log, first.rest + b, first.outcome)
        else Then(first.log, RunBatch(service, path, first.rest + b))
  {
    hide Parse, Encode, HandleMethod, TailOutcome;
    var sp := SplitFrames(a);
    var more := SplitFrames(sp.rest + b);
    var h := HandleAll(service, path, sp.messages);
    SplitAppend(a, b);
    HandleAllAppend(service, path, sp.messages, more.messages);
    if h.outcome.Panic? {
      LeftoverAppend(sp.messages[|h.log|..], sp.rest, b);
      assert (sp.messages + more.messages)[|h.log|..] == sp.messages[|h.log|..] + more.messages;
    } else {
      SplitConserves(a);
      TailAppend(service, path, sp.messages, sp.rest, b);
    }
  }

  lemma TailAppend(service: Service, path: Bytes, messages: seq<Bytes>, rest: Bytes, b: Bytes)
    requires HandleAll(service, path, messages).outcome.Done? && !Parse(rest).Frame?
    ensures var log := HandleAll(service, path, messages).log;
      var more := SplitFrames(rest + b);
      var second := HandleAll(service, path, more.messages);
      var all := messages + more.messages;
      Batch(log + second.log,
            if second.outcome.Panic? then EncodeAll(all[|log + second.log|..]) + more.rest else more.rest,
            if second.outcome.Panic? then second.outcome else TailOutcome(more.rest)) ==
      if TailOutcome(rest).Panic? then Batch(log, rest + b, TailOutcome(rest))
      else Then(log, RunBatch(service, path, rest + b))
  {
    hide Parse, Encode, HandleMethod;
    var log := HandleAll(service, path, messages).log;
    if Parse(rest).Refused? {
      ParseStable(rest, b);
      assert log + [] == log;
    } else {
      var more := SplitFrames(rest + b).messages;
      var k := |HandleAll(service, path, more).log|;
      assert (messages + more)[|log| + k..] == more[k..];
    }
  }

  // ----- What a batch keeps -----------------------------------------------------------------

  // Every dispatch recorded is one the service really makes.
  ghost predicate Genuine(service: Service, log: seq<Dispatch>) {
    forall d <- log :: HandleMethod(service, d.path, d.message) == Done(d.reply)
  }

  lemma {:induction false} HandledIsGenuine(service: Service, path: Bytes, messages: seq<Bytes>)
    ensures var h := HandleAll(service, path, messages);
      && Genuine(service, h.log)
      && Messages(h.log) == messages[..|h.log|]
      && (forall d <- h.log :: d.path == path)
      && (h.outcome.Panic? ==>
            |h.log| < |messages| && HandleMethod(service, path, messages[|h.log|]) == Panic(h.outcome.reason))
  {
    if messages != [] && HandleMethod(service, path, messages[0]).Done? {
      HandledIsGenuine(service, path, messages[1..]);
      var h := HandleAll(service, path, messages[1..]);
      assert messages[..1 + |h.log|] == [messages[0]] + messages[1..][..|h.log|];
    }
  }

  lemma TakeDrop(messages: seq<Bytes>, k: nat, rest: Bytes)
    requires k <= |messages|
    ensures EncodeAll(messages[..k]) + (EncodeAll(messages[k..]) + rest) == EncodeAll(messages) + rest
  {
    assert messages == messages[..k] + messages[k..];
    EncodeAllAppend(messages[..k], messages[k..]);
    Assoc(EncodeAll(messages[..k]), EncodeAll(messages[k..]), rest);
  }

  // No input byte is lost: dispatched messages re-encoded, then the leftover, are the input.
  lemma BatchConserves(service: Service, path: Bytes, s: Bytes)
    ensures var b := RunBatch(service, path, s);
      && EncodeAll(Messages(b.log)) + b.rest == s
      && AllShort(Messages(b.log))
      && Genuine(service, b.log)
      && (forall d <- b.log :: d.path == path)
      && (b.outcome.Done? ==> Parse(b.rest).Incomplete?)
  {
    var sp := SplitFrames(s);
    var h := HandleAll(service, path, sp.messages);
    var k := |h.log|;
    SplitConserves(s);
    HandledIsGenuine(service, path, sp.messages);
    assert AllShort(sp.messages[..k]);
    if h.outcome.Panic? {
      TakeDrop(sp.messages, k, sp.rest);
    } else {
      assert sp.messages[..k] == sp.messages;
    }
  }

  // A batch ends in a panic exactly when the service panics on the frame at the front of its leftover,
  // or when that leftover starts with a refused flag.
  lemma BatchPanicsIff(service: Service, path: Bytes, s: Bytes)
    ensures var b := RunBatch(service, path, s);
      match Parse(b.rest)
      case Incomplete => b.outcome == Done(())
      case Refused(reason) => b.outcome == Panic(reason)
      case Frame(message, _) => b.outcome.Panic? && HandleMethod(service, path, message) == Panic(b.outcome.reason)
  {
    var sp := SplitFrames(s);
    var h := HandleAll(service, path, sp.messages);
    SplitConserves(s);
    HandledIsGenuine(service, path, sp.messages);
    if h.outcome.Panic? {
      var k := |h.log|;
      var failing := sp.messages[k..];
      assert failing[1..] == sp.messages[k + 1..];
      Assoc(Encode(failing[0]), EncodeAll(failing[1..]), sp.rest);
      ParseEncoded(failing[0], EncodeAll(failing[1..]) + sp.rest);
    }
  }

  // At least five input bytes per dispatch; five reply bytes per dispatch on top of the replies.
  lemma BatchBounds(service: Service, path: Bytes, s: Bytes)
    ensures var b := RunBatch(service, path, s);
      && HEADER_LEN * |b.log| + TotalLength(Messages(b.log)) + |b.rest| == |s|
      && |b.log| <= |s| / HEADER_LEN
      && |EncodeAll(Replies(b.log))| == HEADER_LEN * |b.log| + TotalLength(Replies(b.log))
  {
    var b := RunBatch(service, path, s);
    BatchConserves(service, path, s);
    EncodeAllLength(Messages(b.log));
    EncodeAllLength(Replies(b.log));
  }
}

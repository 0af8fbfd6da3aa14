// A unary call from client to server and back, over connections that other streams may share.
module EndToEnd {
  import opened Common
  import opened Utf8
  import opened Codec
  import opened Framing
  import opened Method
  import opened Batch
  import opened Streams
  import opened Sessions
  import opened Isolation
  import opened Responses
  import opened Drain
  import opened Flush
  import opened Client
  import opened Awaiting
  import opened Routing

  // ----- The server's side ------------------------------------------------------------------

  // A stream that has received part of the encoding of one message, or all of it.
  ghost predicate Asking(service: Service, name: Bytes, message: Bytes, v: StreamView) {
    && StreamInvariant(service, v)
    && v.path == name
    && !v.state.ClosedLocal()
    && v.received <= Encode(message)
    && (forall d <- v.log :: d.path == name)
  }

  // If the frames of a log and a leftover are a prefix of one encoded message, the log is empty or all there is.
  lemma OneMessageOnly(message: Bytes, messages: seq<Bytes>, rest: Bytes)
    requires |message| < U32_LIMIT && AllShort(messages)
    requires EncodeAll(messages) + rest <= Encode(message)
    ensures messages == [] || (messages == [message] && rest == [])
  {
    if messages != [] {
      var m := messages[0];
      var got := EncodeAll(messages) + rest;
      var missing := Encode(message)[|got|..];
      Assoc(Encode(m), EncodeAll(messages[1..]), rest);
      Assoc(Encode(m), EncodeAll(messages[1..]) + rest, missing);
      assert Encode(message) == Encode(m) + ((EncodeAll(messages[1..]) + rest) + missing);
      ParseEncoded(m, (EncodeAll(messages[1..]) + rest) + missing);
      ParseEncoded(message, []);
      assert Encode(message) + [] == Encode(message);
      EncodeAllLength(messages[1..]);
      assert messages[1..] == [];
    }
  }

  lemma LogOf(log: seq<Dispatch>, message: Bytes)
    requires Messages(log) == [message]
    ensures |log| == 1 && log[0].message == message
    ensures EncodeAll(Replies(log)) == Encode(log[0].reply)
  {
    assert |log| == |Messages(log)|;
    assert log[0].message == Messages(log)[0];
    assert log == [log[0]];
    OneReply(log[0]);
  }

  // The reply is ready exactly when the whole message has come in.
  lemma AskingReply(service: Service, name: Bytes, message: Bytes, reply: Bytes, v: StreamView)
    requires Asking(service, name, message, v) && |message| < U32_LIMIT
    requires HandleMethod(service, name, message) == Done(reply)
    ensures v.respBuf == if v.received == Encode(message) then Encode(reply) else []
  {
    OneMessageOnly(message, Messages(v.log), v.reqBuf);
    if Messages(v.log) == [] {
      assert v.log == [] && v.received == v.reqBuf;
      ParseEncoded(message, []);
      assert Encode(message) + [] == Encode(message);
    } else {
      LogOf(v.log, message);
      assert v.log[0] in v.log;
      assert EncodeAll([message]) + [] == Encode(message) + [];
      assert v.received == Encode(message);
    }
  }

  // A prefix of one encoded message holds no refused flag, and no frame but that message.
  lemma PrefixParses(message: Bytes, s: Bytes)
    requires |message| < U32_LIMIT && s <= Encode(message)
    ensures Parse(s).Incomplete? || Parse(s) == Frame(message, HEADER_LEN + |message|)
  {
    if s == Encode(message) {
      ParseEncoded(message, []);
      assert s == s + [];
    } else {
      ProperPrefixIsIncomplete(s, message);
    }
  }

  // More of the message never makes the stream panic.
  lemma AskingData(service: Service, name: Bytes, message: Bytes, reply: Bytes, v: StreamView, data: Bytes)
    requires Asking(service, name, message, v) && |message| < U32_LIMIT
    requires HandleMethod(service, name, message) == Done(reply)
    requires v.received + data <= Encode(message)
    ensures var (next, outcome) := DataSpec(service, v, data);
      outcome.Done? && Asking(service, name, message, next) && next.received == v.received + data
  {
    var b := RunBatch(service, v.path, v.reqBuf + data);
    var next := DataSpec(service, v, data).0;
    DataConserves(service, v, data);
    BatchConserves(service, v.path, v.reqBuf + data);
    BatchPanicsIff(service, v.path, v.reqBuf + data);
    OneMessageOnly(message, Messages(next.log), b.rest);
    if Messages(next.log) == [] {
      assert next.log == [] && EncodeAll([]) + b.rest == b.rest;
      PrefixParses(message, b.rest);
    }
  }

  function Repeat(fs: seq<HttpFrame>, n: nat): seq<HttpFrame> {
    if n == 0 then [] else fs + Repeat(fs, n - 1)
  }

  // What one pass sends for a stream that is asking.
  lemma PassAnswers(service: Service, s: Session, rs: seq<Response>, id: StreamId,
                    name: Bytes, message: Bytes, reply: Bytes)
    requires id in s && Asking(service, name, message, s[id]) && |message| < U32_LIMIT
    requires HandleMethod(service, name, message) == Done(reply)
    requires IsResponses(s, rs)
    ensures Own(Triples(rs), id) == if s[id].received == Encode(message) then Triple((id, Encode(reply))) else []
    ensures (exists r <- rs :: r.0 == id) <==> s[id].received == Encode(message)
    ensures id in Reap(s) && Reap(s)[id] == s[id]
  {
    AskingReply(service, name, message, reply, s[id]);
    OwnTriples(s, rs, id);
    if s[id].respBuf != [] {
      assert (id, s[id].respBuf) in rs;
    }
  }

  // One pass over a stream that is asking, whoever its frame is for.
  lemma AskingPass(service: Service, s: Session, p: Pass, id: StreamId, name: Bytes, message: Bytes, reply: Bytes,
                   arriving: seq<HttpFrame>, later: seq<HttpFrame>)
    requires PassOk(service, s, p) && id in s && Asking(service, name, message, s[id]) && |message| < U32_LIMIT
    requires HandleMethod(service, name, message) == Done(reply)
    requires arriving == if Addresses(p.frame, id) then [p.frame] + later else later
    requires Addresses(p.frame, id) ==> p.frame.DataFrame?
    requires s[id].received + Concat(Datas(arriving)) <= Encode(message)
    ensures var after := AfterPass(service, s, p.frame);
      && id in after && Asking(service, name, message, after[id])
      && after[id].received + Concat(Datas(later)) == s[id].received + Concat(Datas(arriving))
      && Own(Triples(p.responses), id) ==
           (if after[id].received == Encode(message) then Triple((id, Encode(reply))) else [])
      && ((exists r <- p.responses :: r.0 == id) <==> after[id].received == Encode(message))
  {
    hide Asking, IsResponses, HandleFrame, Encode;
    if Addresses(p.frame, id) {
      DatasHead(p.frame, later);
      Assoc(s[id].received, p.frame.data, Concat(Datas(later)));
      AskingFrame(service, s, p.frame, id, name, message, reply);
    } else {
      OthersUntouched(service, s, p.frame, id);
    }
    PassAnswers(service, HandleFrame(service, s, p.frame).0, p.responses, id, name, message, reply);
  }

  lemma {:induction false} AskingRun(service: Service, s: Session, passes: seq<Pass>, id: StreamId,
                                     name: Bytes, message: Bytes, reply: Bytes, arriving: seq<HttpFrame>)
    requires RunOk(service, s, passes) && id in s && Asking(service, name, message, s[id]) && |message| < U32_LIMIT
    requires HandleMethod(service, name, message) == Done(reply)
    requires Own(Frames(passes), id) == arriving && forall f <- arriving :: f.DataFrame?
    requires s[id].received + Concat(Datas(arriving)) <= Encode(message)
    ensures Own(Output(passes), id) == Repeat(Triple((id, Encode(reply))), Deliveries(passes, id))
    ensures s[id].received != Encode(message) && s[id].received + Concat(Datas(arriving)) == Encode(message)
        ==> Deliveries(passes, id) > 0
    decreases |passes|
  {
    hide Asking, PassOk, AfterPass, HandleMethod, Encode, Triple;
    if passes == [] {
      assert s[id].received + [] == s[id].received;
    } else {
      var p := passes[0];
      var later := Own(Frames(passes[1..]), id);
      assert Frames(passes) == [p.frame] + Frames(passes[1..]);
      OwnHead(Frames(passes[1..]), p.frame, id);
      if Addresses(p.frame, id) {
        assert arriving[0] in arriving;
      }
      AskingPass(service, s, p, id, name, message, reply, arriving, later);
      AskingRun(service, AfterPass(service, s, p.frame), passes[1..], id, name, message, reply, later);
      OwnAppend(Triples(p.responses), Output(passes[1..]), id);
    }
  }

  lemma OthersUntouched(service: Service, s: Session, f: HttpFrame, id: StreamId)
    requires !Addresses(f, id) && id in s
    ensures var during := HandleFrame(service, s, f).0;
      id in during && during[id] == s[id]
  {
  }

  lemma AskingFrame(service: Service, s: Session, f: HttpFrame, id: StreamId, name: Bytes, message: Bytes, reply: Bytes)
    requires f.DataFrame? && f.id == id && id in s && Asking(service, name, message, s[id]) && |message| < U32_LIMIT
    requires HandleMethod(service, name, message) == Done(reply)
    requires s[id].received + f.data <= Encode(message)
    ensures var during := HandleFrame(service, s, f).0;
      && HandleFrame(service, s, f).1.Running? && during.Keys == s.Keys
      && Asking(service, name, message, during[id]) && during[id].received == s[id].received + f.data
  {
    AskingData(service, name, message, reply, s[id], f.data);
  }

  lemma OpeningFrame(service: Service, s: Session, f: HttpFrame, id: StreamId, name: Bytes, message: Bytes)
    requires f.HeadersFrame? && f.id == id && id !in s
    requires ReadPath([], f.headers) == (name, Done(()))
    ensures var during := HandleFrame(service, s, f).0;
      && HandleFrame(service, s, f).1.Running? && during.Keys == s.Keys + {id}
      && Asking(service, name, message, during[id]) && during[id].received == []
  {
    FreshInvariant(service);
    assert FRESH.path == [];
  }

  lemma NothingYet(service: Service, s: Session, p: Pass, id: StreamId)
    requires PassOk(service, s, p) && id !in s && !Addresses(p.frame, id)
    ensures id !in AfterPass(service, s, p.frame)
    ensures Own(Triples(p.responses), id) == []
    ensures !exists r <- p.responses :: r.0 == id
  {
    OwnTriples(HandleFrame(service, s, p.frame).0, p.responses, id);
  }

  // The server's half: once headers naming a method and the whole encoding of one message have come in, cut into
  // DATA frames in any way and interleaved with any other streams, all that goes out for the stream is
  // HEADERS, DATA with the encoded reply, HEADERS, sent at least once and each time the same.
  lemma {:induction false} ServerAnswers(service: Service, s: Session, passes: seq<Pass>, id: StreamId,
                                         name: Bytes, message: Bytes, reply: Bytes,
                                         opening: HttpFrame, arriving: seq<HttpFrame>)
    requires RunOk(service, s, passes) && id !in s && |message| < U32_LIMIT
    requires HandleMethod(service, name, message) == Done(reply)
    requires opening.HeadersFrame? && ReadPath([], opening.headers) == (name, Done(()))
    requires Own(Frames(passes), id) == [opening] + arriving && forall f <- arriving :: f.DataFrame?
    requires Concat(Datas(arriving)) == Encode(message)
    ensures Own(Output(passes), id) == Repeat(Triple((id, Encode(reply))), Deliveries(passes, id))
    ensures Deliveries(passes, id) > 0
    decreases |passes|
  {
    hide Asking, IsResponses, HandleFrame;
    assert Own(Frames(passes), id)[0] == opening;
    var p := passes[0];
    var during := HandleFrame(service, s, p.frame).0;
    var after := AfterPass(service, s, p.frame);
    assert Frames(passes) == [p.frame] + Frames(passes[1..]);
    OwnHead(Frames(passes[1..]), p.frame, id);
    OwnAppend(Triples(p.responses), Output(passes[1..]), id);
    if Addresses(p.frame, id) {
      assert p.frame == opening;
      assert Own(Frames(passes), id)[1..] == arriving;
      OpeningFrame(service, s, p.frame, id, name, message);
      PassAnswers(service, during, p.responses, id, name, message, reply);
      assert [] + Concat(Datas(arriving)) == Encode(message);
      AskingRun(service, after, passes[1..], id, name, message, reply, arriving);
    } else {
      NothingYet(service, s, p, id);
      ServerAnswers(service, after, passes[1..], id, name, message, reply, opening, arriving);
    }
  }

  lemma {:induction false} RepeatedAt(fs: seq<HttpFrame>, n: nat, k: nat)
    requires |fs| == 3 && k < n
    ensures |Repeat(fs, n)| == 3 * n && Repeat(fs, n)[3 * k..3 * k + 3] == fs
    decreases n
  {
    if n > 1 {
      RepeatedAt(fs, n - 1, if k == 0 then 0 else k - 1);
    }
    if k > 0 {
      assert Repeat(fs, n)[3 * k..3 * k + 3] == Repeat(fs, n - 1)[3 * (k - 1)..3 * (k - 1) + 3];
    }
  }

  // Each of these answers is one of the gRPC protocol: status 200 and the content type, the encoded reply, status 0.
  lemma AnswersAreGrpc(service: Service, s: Session, passes: seq<Pass>, id: StreamId,
                       name: Bytes, message: Bytes, reply: Bytes, opening: HttpFrame, arriving: seq<HttpFrame>)
    requires RunOk(service, s, passes) && id !in s && |message| < U32_LIMIT
    requires HandleMethod(service, name, message) == Done(reply)
    requires opening.HeadersFrame? && ReadPath([], opening.headers) == (name, Done(()))
    requires Own(Frames(passes), id) == [opening] + arriving && forall f <- arriving :: f.DataFrame?
    requires Concat(Datas(arriving)) == Encode(message)
    ensures var own, n := Own(Output(passes), id), Deliveries(passes, id);
      && n > 0 && |own| == 3 * n
      && forall k | 0 <= k < n :: IsAnswer(own[3 * k..3 * k + 3], id, Encode(reply)) && SaysOk(own[3 * k + 2].headers)
  {
    hide RunOk, HandleMethod, Encode, Triple, IsAnswer, Deliveries;
    var r := (id, Encode(reply));
    var n := Deliveries(passes, id);
    ServerAnswers(service, s, passes, id, name, message, reply, opening, arriving);
    RepeatedAt(Triple(r), n, 0);
    forall k | 0 <= k < n
      ensures var fs := Repeat(Triple(r), n)[3 * k..3 * k + 3];
        IsAnswer(fs, id, Encode(reply)) && fs[2] == Repeat(Triple(r), n)[3 * k + 2]
        && fs[2].HeadersFrame? && SaysOk(fs[2].headers)
    {
      RepeatedAt(Triple(r), n, k);
      TripleIsAnswer(r);
      TripleSaysOk(r);
    }
  }

  lemma TripleSaysOk(r: Response)
    ensures Triple(r)[2].HeadersFrame? && SaysOk(Triple(r)[2].headers)
  {
    assert GRPC_STATUS == Ascii("grpc-status") && STATUS_OK == Ascii("0");
  }

  // ----- The client's side ------------------------------------------------------------------

  // A failing status goes unnoticed: whatever status the server closes the stream with, a body that reads as a message
  // makes the call return that message.
  lemma FailedStatusIsIgnored<Req, Resp>(desc: MethodDescriptor<Req, Resp>, host: Host, streams: ClientSession,
                                         id: StreamId, status: Bytes, message: Bytes, resp: Resp)
      returns (incoming: seq<HttpFrame>)
    requires id in streams && streams[id].state == HalfClosedLocal && streams[id].body == []
    requires |message| < U32_LIMIT && desc.respMarshaller.read(message) == Done(resp)
    requires status != Ascii("0")
    ensures var trailers := [Header(Ascii("grpc-status"), status)];
      && !SaysOk(trailers)
      && AwaitClosed(streams, id, incoming) == Response(trailers, Encode(message))
      && Decode(desc, host, AwaitClosed(streams, id, incoming)) == Done(resp)
  {
    hide AwaitClosed, Encode, ParseFrameCompletely;
    var headers, data := HeadersFrame(id, RESPONSE_HEADERS, false), DataFrame(id, Encode(message), false);
    var trailers := HeadersFrame(id, [Header(Ascii("grpc-status"), status)], true);
    incoming := [headers] + [data] + [trailers];
    OwnAll(incoming, id);
    AwaitResponse(streams, id, incoming, [], headers, [data], trailers);
    assert incoming + [] == incoming;
    OneData(data);
    DecodesIff(desc, host, AwaitClosed(streams, id, incoming), resp);
  }

  // ----- Both together ----------------------------------------------------------------------

  // What one end sent for a stream and what the other receives first: the same headers, the same bytes of data
  // cut into DATA frames in any way, the same trailers.
  ghost predicate Recut(sent: seq<HttpFrame>, received: seq<HttpFrame>, delivered: seq<HttpFrame>) {
    && |sent| >= 3 && sent[1].DataFrame?
    && received == [sent[0]] + delivered + [sent[2]]
    && (forall f <- delivered :: f.DataFrame? && !f.end)
    && Concat(Datas(delivered)) == sent[1].data
  }

  lemma RequestPath(name: Bytes, authority: Bytes)
    requires ValidUtf8(name)
    ensures ReadPath([], RequestHeaders(POST, name, authority, [])) == (name, Done(()))
  {
    var hs := RequestHeaders(POST, name, authority, []);
    assert hs[1..][1..] == hs[2..] && hs[2..][1..] == hs[3..] && hs[3..][1..] == [];
    assert ReadPath(name, hs[3..]) == (name, Done(()));
    assert ReadPath(name, hs[2..]) == (name, Done(()));
    assert ReadPath([], hs[1..]) == (name, Done(()));
  }

  // The unary call: for a registered method with lawful marshallers and messages under 4 GiB, the client's call
  // returns the handler's answer, however request and response are cut into DATA frames, whatever other streams
  // share the two connections, and however often the server repeats the response.
  lemma UnaryCall<Req(!new), Resp(!new)>(
      desc: MethodDescriptor<Req, Resp>, handler: Handler<Req, Resp>,
      req: Req, message: Bytes, resp: Resp, reply: Bytes,
      streams: ClientSession, id: StreamId, authority: Bytes, after: Senders, out: seq<HttpFrame>,
      service: Service, s: Session, passes: seq<Pass>, arriving: seq<HttpFrame>,
      host: Host, first: seq<HttpFrame>, delivered: seq<HttpFrame>, rest: seq<HttpFrame>)
    requires FindMethod(service, desc.name) == Done(NewServerMethod(desc, handler)) && ValidUtf8(desc.name)
    requires Lawful(desc.reqMarshaller) && Lawful(desc.respMarshaller)
    requires desc.reqMarshaller.write(req) == Done(message) && |message| < U32_LIMIT
    requires handler(req) == Done(resp) && desc.respMarshaller.write(resp) == Done(reply) && |reply| < U32_LIMIT
    // the client has sent the request
    requires FlushedBy(ClientSenders(Started(streams, id, Some(Encode(message)))), after, out) && NothingReadable(after)
    // the request reaches the server
    requires id !in s && RunOk(service, s, passes) && forall f <- arriving :: f.DataFrame?
    requires Own(Frames(passes), id)
      == [Opening(id, RequestHeaders(POST, desc.name, authority, []), Some(Encode(message)))] + arriving
    requires Concat(Datas(arriving)) == Concat(Datas(Own(out, id)))
    // the response reaches the client
    requires Recut(Own(Output(passes), id), Own(first, id), delivered)
    requires var waiting := WithClientSenders(Started(streams, id, Some(Encode(message))), after);
      Expected(waiting, first)
    ensures var waiting := WithClientSenders(Started(streams, id, Some(Encode(message))), after);
      Decode(desc, host, AwaitClosed(waiting, id, first + rest)) == Done(resp)
  {
    hide FlushedBy, NothingReadable, RunOk, Expected, Recut, Lawful, FindMethod, AwaitClosed, RequestHeaders, Encode,
      Deliveries, ParseFrameCompletely;
    RequestIsAnswered(desc, handler, req, message, resp, reply, streams, id, authority, after, out,
                      service, s, passes, arriving);
    ResponseIsRead(streams, id, Encode(message), after, out, (id, Encode(reply)), Deliveries(passes, id),
                   first, delivered, rest);
    ParseCompletelyIffEncoded(host, Encode(reply), reply);
    RepliesReadBack(desc.respMarshaller, resp, reply);
  }

  // The unary call of generated code: a stub of a service's generated client calls the service's generated server, and
  // the call returns what the trait method of that name answers. That the two agree on path, lookup and marshallers
  // follows from the way both are generated.
  lemma GeneratedCall<M(!new)>(
      proto: ServiceProto, marshallers: Marshallers<M>, implementation: Implementation<M>, service: Service,
      m: MethodProto, req: M, message: Bytes, resp: M, reply: Bytes,
      streams: ClientSession, id: StreamId, authority: Bytes, after: Senders, out: seq<HttpFrame>,
      s: Session, passes: seq<Pass>, arriving: seq<HttpFrame>,
      host: Host, first: seq<HttpFrame>, delivered: seq<HttpFrame>, rest: seq<HttpFrame>)
    requires Legal(proto) && m in proto.methods && Registers(service, proto, marshallers, implementation)
    requires Lawful(marshallers(m.input)) && Lawful(marshallers(m.output))
    requires marshallers(m.input).write(req) == Done(message) && |message| < U32_LIMIT
    requires implementation(m.name)(req) == Done(resp)
    requires marshallers(m.output).write(resp) == Done(reply) && |reply| < U32_LIMIT
    // the client has sent the request
    requires FlushedBy(ClientSenders(Started(streams, id, Some(Encode(message)))), after, out) && NothingReadable(after)
    // the request reaches the server
    requires id !in s && RunOk(service, s, passes) && forall f <- arriving :: f.DataFrame?
    requires var path := FullPath(proto.package, proto.name, m.name);
      Own(Frames(passes), id)
      == [Opening(id, RequestHeaders(POST, path, authority, []), Some(Encode(message)))] + arriving
    requires Concat(Datas(arriving)) == Concat(Datas(Own(out, id)))
    // the response reaches the client
    requires Recut(Own(Output(passes), id), Own(first, id), delivered)
    requires Expected(WithClientSenders(Started(streams, id, Some(Encode(message))), after), first)
    ensures var waiting := WithClientSenders(Started(streams, id, Some(Encode(message))), after);
      Decode(StubDescriptor(proto, m, marshallers), host, AwaitClosed(waiting, id, first + rest)) == Done(resp)
  {
    hide FlushedBy, NothingReadable, RunOk, Expected, Recut, Lawful, FindMethod, AwaitClosed, RequestHeaders, Encode,
      Deliveries, ParseFrameCompletely, Registers, Legal, Decode, WithClientSenders, Own, NewServerMethod;
    StubFindsItsMethod(proto, marshallers, implementation, service, m);
    UnaryCall(StubDescriptor(proto, m, marshallers), implementation(m.name), req, message, resp, reply,
              streams, id, authority, after, out, service, s, passes, arriving, host, first, delivered, rest);
  }

  lemma RepliesReadBack<M(!new)>(marshaller: Marshaller<M>, m: M, bytes: Bytes)
    requires Lawful(marshaller) && marshaller.write(m) == Done(bytes)
    ensures marshaller.read(bytes) == Done(m)
  {
  }

  // From the client's request to the frames the server sends for it.
  lemma RequestIsAnswered<Req(!new), Resp(!new)>(
      desc: MethodDescriptor<Req, Resp>, handler: Handler<Req, Resp>,
      req: Req, message: Bytes, resp: Resp, reply: Bytes,
      streams: ClientSession, id: StreamId, authority: Bytes, after: Senders, out: seq<HttpFrame>,
      service: Service, s: Session, passes: seq<Pass>, arriving: seq<HttpFrame>)
    requires FindMethod(service, desc.name) == Done(NewServerMethod(desc, handler)) && ValidUtf8(desc.name)
    requires Lawful(desc.reqMarshaller) && Lawful(desc.respMarshaller)
    requires desc.reqMarshaller.write(req) == Done(message) && |message| < U32_LIMIT
    requires handler(req) == Done(resp) && desc.respMarshaller.write(resp) == Done(reply)
    requires FlushedBy(ClientSenders(Started(streams, id, Some(Encode(message)))), after, out) && NothingReadable(after)
    requires id !in s && RunOk(service, s, passes) && forall f <- arriving :: f.DataFrame?
    requires Own(Frames(passes), id)
      == [Opening(id, RequestHeaders(POST, desc.name, authority, []), Some(Encode(message)))] + arriving
    requires Concat(Datas(arriving)) == Concat(Datas(Own(out, id)))
    ensures Own(Output(passes), id) == Repeat(Triple((id, Encode(reply))), Deliveries(passes, id))
    ensures Deliveries(passes, id) > 0
  {
    hide FlushedBy, NothingReadable, RunOk, Lawful, FindMethod, ReadPath, RequestHeaders, Encode, Deliveries, OnMessage;
    var headers := RequestHeaders(POST, desc.name, authority, []);
    RequestIsComplete(streams, id, headers, Some(Encode(message)), after, out);
    RequestPath(desc.name, authority);
    DispatchedCall(service, desc, handler, req);
    var opening := Opening(id, headers, Some(Encode(message)));
    ServerAnswers(service, s, passes, id, desc.name, message, reply, opening, arriving);
  }

  // From the server's frames to what get_response returns.
  lemma ResponseIsRead(streams: ClientSession, id: StreamId, body: Bytes, after: Senders, out: seq<HttpFrame>,
                       r: Response, n: nat, first: seq<HttpFrame>, delivered: seq<HttpFrame>, rest: seq<HttpFrame>)
    requires FlushedBy(ClientSenders(Started(streams, id, Some(body))), after, out) && NothingReadable(after)
    requires n > 0 && Recut(Repeat(Triple(r), n), Own(first, id), delivered)
    requires Expected(WithClientSenders(Started(streams, id, Some(body)), after), first)
    ensures AwaitClosed(WithClientSenders(Started(streams, id, Some(body)), after), id, first + rest)
         == Response(TRAILERS, r.1)
  {
    hide FlushedBy, NothingReadable, Expected, AwaitClosed;
    var sent := Repeat(Triple(r), n);
    FirstTriple(r, n);
    RequestIsComplete(streams, id, [], Some(body), after, out);
    var waiting := WithClientSenders(Started(streams, id, Some(body)), after);
    AwaitResponse(waiting, id, first, rest, sent[0], delivered, sent[2]);
  }

  lemma FirstTriple(r: Response, n: nat)
    requires n > 0
    ensures |Repeat(Triple(r), n)| >= 3
    ensures forall i | 0 <= i < 3 :: Repeat(Triple(r), n)[i] == Triple(r)[i]
  {
  }

  // ----- Delivery is not exactly once -------------------------------------------------------

  lemma SoleStreamAnswers(service: Service, id: StreamId, name: Bytes, message: Bytes, reply: Bytes, v: StreamView)
    requires Asking(service, name, message, v) && |message| < U32_LIMIT
    requires HandleMethod(service, name, message) == Done(reply)
    ensures IsResponses(map[id := v], if v.received == Encode(message) then [(id, Encode(reply))] else [])
    ensures Reap(map[id := v]) == map[id := v]
  {
    AskingReply(service, name, message, reply, v);
  }

  // A client that sends one message and then, say, a PING gets the same reply twice, whatever the method.
  lemma AnsweredTwice(service: Service, id: StreamId, name: Bytes, message: Bytes, reply: Bytes, headers: seq<Header>)
      returns (passes: seq<Pass>)
    requires |message| < U32_LIMIT && HandleMethod(service, name, message) == Done(reply)
    requires ReadPath([], headers) == (name, Done(()))
    ensures Frames(passes) == [HeadersFrame(id, headers, false), DataFrame(id, Encode(message), true), OtherFrame]
    ensures RunOk(service, map[], passes) && Deliveries(passes, id) == 2
    ensures Output(passes) == Triple((id, Encode(reply))) + Triple((id, Encode(reply)))
  {
    hide Asking, IsResponses, HandleFrame;
    var r := (id, Encode(reply));
    var f0, f1 := HeadersFrame(id, headers, false), DataFrame(id, Encode(message), true);
    passes := [Pass(f0, []), Pass(f1, [r]), Pass(OtherFrame, [r])];

    OpeningFrame(service, map[], f0, id, name, message);
    var waiting := HandleFrame(service, map[], f0).0;
    assert waiting == map[id := waiting[id]];
    SoleStreamAnswers(service, id, name, message, reply, waiting[id]);

    assert [] + Encode(message) == Encode(message);
    AskingFrame(service, waiting, f1, id, name, message, reply);
    var asked := HandleFrame(service, waiting, f1).0;
    assert asked == map[id := asked[id]];
    SoleStreamAnswers(service, id, name, message, reply, asked[id]);

    TwoDeliveries(service, id, f0, f1, r, waiting, asked);
  }

  lemma TwoDeliveries(service: Service, id: StreamId, f0: HttpFrame, f1: HttpFrame, r: Response,
                      waiting: Session, asked: Session)
    requires HandleFrame(service, map[], f0) == (waiting, Running)
    requires Reap(waiting) == waiting && IsResponses(waiting, [])
    requires HandleFrame(service, waiting, f1) == (asked, Running) && Reap(asked) == asked && IsResponses(asked, [r])
    requires r.0 == id
    ensures var passes := [Pass(f0, []), Pass(f1, [r]), Pass(OtherFrame, [r])];
      && RunOk(service, map[], passes)
      && Deliveries(passes, id) == 2
      && Output(passes) == Triple(r) + Triple(r)
  {
    hide IsResponses, HandleFrame, Reap, Triple, Deliveries;
    var p0, p1, p2 := Pass(f0, []), Pass(f1, [r]), Pass(OtherFrame, [r]);
    assert [p0, p1, p2][1..] == [p1, p2] && [p1, p2][1..] == [p2] && [p2][1..] == [];
    OtherFrameIsIdle(service, asked);
    assert RunOk(service, asked, [p2]);
    assert RunOk(service, waiting, [p1, p2]);
    CountTwo(p0, p1, p2, id, r);
    assert [r][1..] == [];
    assert Triples([r]) == Triple(r) + [];
    assert Output([p2]) == Triple(r) + [];
    assert Output([p1, p2]) == Triple(r) + Triple(r);
    assert Output([p0, p1, p2]) == [] + Output([p1, p2]);
  }

  lemma OtherFrameIsIdle(service: Service, s: Session)
    ensures HandleFrame(service, s, OtherFrame) == (s, Running)
  {
  }

  lemma CountTwo(p0: Pass, p1: Pass, p2: Pass, id: StreamId, r: Response)
    requires p0.responses == [] && p1.responses == [r] && p2.responses == [r] && r.0 == id
    ensures Deliveries([p0, p1, p2], id) == 2
  {
    assert [p0, p1, p2][1..] == [p1, p2] && [p1, p2][1..] == [p2] && [p2][1..] == [];
    assert exists q <- p1.responses :: q.0 == id;
    assert exists q <- p2.responses :: q.0 == id;
    assert Deliveries([p2], id) == 1;
    assert Deliveries([p1, p2], id) == 2;
  }

  // ----- The unary call can take place ------------------------------------------------------

  // Flushing the only stream of a client: exactly the reads its body needs.
  lemma SoleFlush(id: StreamId, body: Bytes) returns (after: Senders, out: seq<HttpFrame>)
    ensures FlushedBy(ClientSenders(Started(map[], id, Some(body))), after, out) && NothingReadable(after)
  {
    var s := Sender(Open, Some(Cursor(body, 0)));
    var m := ClientSenders(Started(map[], id, Some(body)));
    assert m == map[id := s];
    var n := ReadsNeeded(|body|, MAX_CHUNK_SIZE);
    var (end, rs) := ReadMany(s, MAX_CHUNK_SIZE, n);
    after, out := map[id := end], DataFrames(id, rs);
    DrainDelivers(s, MAX_CHUNK_SIZE, n);
    forall r <- rs ensures r.0.Last? || r.0.Chunk? {
      var i :| 0 <= i < |rs| && rs[i] == r;
      DrainResults(s, MAX_CHUNK_SIZE, n, i);
    }
    OwnAll(out, id);
  }

  lemma {:induction false} OwnAll(fs: seq<HttpFrame>, id: StreamId)
    requires forall f <- fs :: Addresses(f, id)
    ensures Own(fs, id) == fs
  {
    if fs != [] {
      OwnAll(fs[1..], id);
      assert [fs[0]] + fs[1..] == fs;
    }
  }

  // The premises of UnaryCall can be met for every registered method and every request under its conditions:
  // a client alone on its connection, and a server that answers twice.
  lemma UnaryCallHappens(service: Service, name: Bytes, message: Bytes, reply: Bytes, id: StreamId, authority: Bytes)
      returns (after: Senders, out: seq<HttpFrame>, passes: seq<Pass>, arriving: seq<HttpFrame>,
               first: seq<HttpFrame>, delivered: seq<HttpFrame>)
    requires |message| < U32_LIMIT && HandleMethod(service, name, message) == Done(reply) && ValidUtf8(name)
    ensures FlushedBy(ClientSenders(Started(map[], id, Some(Encode(message)))), after, out) && NothingReadable(after)
    ensures RunOk(service, map[], passes) && forall f <- arriving :: f.DataFrame?
    ensures Own(Frames(passes), id)
      == [Opening(id, RequestHeaders(POST, name, authority, []), Some(Encode(message)))] + arriving
    ensures Concat(Datas(arriving)) == Concat(Datas(Own(out, id)))
    ensures Recut(Own(Output(passes), id), Own(first, id), delivered)
    ensures Expected(WithClientSenders(Started(map[], id, Some(Encode(message))), after), first)
  {
    hide HandleMethod, RunOk, FlushedBy, NothingReadable, Encode, Deliveries;
    var headers := RequestHeaders(POST, name, authority, []);
    var r := (id, Encode(reply));
    RequestPath(name, authority);
    after, out := SoleFlush(id, Encode(message));
    RequestIsComplete(map[], id, headers, Some(Encode(message)), after, out);
    passes := AnsweredTwice(service, id, name, message, reply, headers);
    arriving := [DataFrame(id, Encode(message), true)];
    first, delivered := Triple(r), [DataFrame(id, Encode(reply), false)];
    OwnFrames(Opening(id, headers, Some(Encode(message))), arriving[0], id);
    OneData(arriving[0]);
    OneData(delivered[0]);
    OwnTriple(r, id);
    OwnAppend(Triple(r), Triple(r), id);
    assert WithClientSenders(Started(map[], id, Some(Encode(message))), after).Keys == {id};
  }

  lemma OwnFrames(opening: HttpFrame, data: HttpFrame, id: StreamId)
    requires Addresses(opening, id) && Addresses(data, id)
    ensures Own([opening, data, OtherFrame], id) == [opening] + [data]
  {
    OwnHead([data, OtherFrame], opening, id);
    OwnHead([OtherFrame], data, id);
    OwnHead([], OtherFrame, id);
    assert [opening, data, OtherFrame] == [opening] + [data, OtherFrame];
    assert [data, OtherFrame] == [data] + [OtherFrame];
    assert [OtherFrame] == [OtherFrame] + [];
  }

  lemma OneData(f: HttpFrame)
    requires f.DataFrame?
    ensures Concat(Datas([f])) == f.data
  {
    DatasHead(f, []);
    assert [f] + [] == [f];
    assert Datas([]) == [];
    assert f.data + [] == f.data;
  }
}

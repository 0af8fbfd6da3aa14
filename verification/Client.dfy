// The synchronous client of src/client.rs: sending a request, waiting for the stream to close, decoding the reply.
module Client {
  import opened Common
  import opened Codec
  import opened Method
  import opened Streams
  import opened Drain
  import opened Sessions
  import opened Isolation
  import opened Flush

  // A client stream: solicit's DefaultStream.
  datatype ClientView = ClientView(state: StreamState, headers: Option<seq<Header>>, body: Bytes, data: Option<Cursor>)

  type ClientSession = map<StreamId, ClientView>

  // "POST", ":method", ":authority", ":scheme", "http"
  const POST: Bytes := [0x50, 0x4F, 0x53, 0x54]
  const METHOD_NAME: Bytes := [0x3A, 0x6D, 0x65, 0x74, 0x68, 0x6F, 0x64]
  const AUTHORITY_NAME: Bytes := [0x3A, 0x61, 0x75, 0x74, 0x68, 0x6F, 0x72, 0x69, 0x74, 0x79]
  const SCHEME_NAME: Bytes := [0x3A, 0x73, 0x63, 0x68, 0x65, 0x6D, 0x65]
  const SCHEME_HTTP: Bytes := [0x68, 0x74, 0x74, 0x70]

  function RequestHeaders(verb: Bytes, path: Bytes, authority: Bytes, extras: seq<Header>): seq<Header> {
    [Header(METHOD_NAME, verb), Header(PATH_NAME, path), Header(AUTHORITY_NAME, authority),
     Header(SCHEME_NAME, SCHEME_HTTP)] + extras
  }

  // new_stream: a full body to send, or nothing to send at all.
  function NewStream(body: Option<Bytes>): ClientView {
    match body
    case Some(bytes) => ClientView(Open, None, [], Some(Cursor(bytes, 0)))
    case None => ClientView(Open.CloseLocal(), None, [], None)
  }

  function ClientSender(v: ClientView): Sender {
    Sender(v.state, v.data)
  }

  function WithClientSender(v: ClientView, s: Sender): ClientView {
    v.(state := s.state, data := s.data)
  }

  function ClientSenders(streams: ClientSession): Senders {
    map id | id in streams :: ClientSender(streams[id])
  }

  function WithClientSenders(streams: ClientSession, m: Senders): ClientSession {
    map id | id in streams && id in m :: WithClientSender(streams[id], m[id])
  }

  // The client's streams at the moment a new one is started.
  function Started(streams: ClientSession, id: StreamId, body: Option<Bytes>): ClientSession {
    streams[id := NewStream(body)]
  }

  // A request is its headers, then whatever flushing all the client's streams sends.
  function Opening(id: StreamId, headers: seq<Header>, body: Option<Bytes>): HttpFrame {
    HeadersFrame(id, headers, body.None?)
  }

  lemma HeaderNames()
    ensures PATH_NAME == Ascii(":path") && METHOD_NAME == Ascii(":method")
    ensures AUTHORITY_NAME == Ascii(":authority") && SCHEME_NAME == Ascii(":scheme")
    ensures POST == Ascii("POST") && SCHEME_HTTP == Ascii("http")
    ensures var names := [METHOD_NAME, PATH_NAME, AUTHORITY_NAME, SCHEME_NAME];
      forall a, b | 0 <= a < b < 4 :: names[a] != names[b]
  {
    assert SCHEME_NAME[1] != METHOD_NAME[1];
  }

  // The header list of a request holds each pseudo-header of section 8.1.2.3 of RFC 7540 with its own value, and what
  // the caller adds.
  lemma RequestHeadersRead(verb: Bytes, path: Bytes, authority: Bytes, extras: seq<Header>, name: Bytes)
    ensures var hs := RequestHeaders(verb, path, authority, extras);
      && ValuesOf(hs, name) ==
           (if name == Ascii(":method") then [verb]
            else if name == Ascii(":path") then [path]
            else if name == Ascii(":authority") then [authority]
            else if name == Ascii(":scheme") then [Ascii("http")]
            else []) + ValuesOf(extras, name)
  {
    var hs := RequestHeaders(verb, path, authority, extras);
    HeaderNames();
    assert hs[1..][1..] == hs[2..] && hs[2..][1..] == hs[3..] && hs[3..][1..] == extras;
    assert ValuesOf(hs[3..], name) ==
      (if name == SCHEME_NAME then [SCHEME_HTTP] else []) + ValuesOf(extras, name);
    assert ValuesOf(hs[2..], name) ==
      (if name == AUTHORITY_NAME then [authority] else if name == SCHEME_NAME then [SCHEME_HTTP] else [])
      + ValuesOf(extras, name);
    assert ValuesOf(hs[1..], name) ==
      (if name == PATH_NAME then [path] else if name == AUTHORITY_NAME then [authority]
       else if name == SCHEME_NAME then [SCHEME_HTTP] else []) + ValuesOf(extras, name);
  }

  lemma RequestHeadersOrder(verb: Bytes, path: Bytes, authority: Bytes, extras: seq<Header>)
    ensures PseudoFirst(RequestHeaders(verb, path, authority, extras)) <==> PseudoFirst(extras)
  {
    var hs := RequestHeaders(verb, path, authority, extras);
    assert forall i | 0 <= i < |extras| :: extras[i] == hs[i + 4];
    assert forall i | 0 <= i < 4 :: IsPseudo(hs[i]);
  }

  // What call sends: POST to the method's path at the client's authority over http, and no other header.
  lemma CallHeadersRead(path: Bytes, authority: Bytes)
    ensures var hs := RequestHeaders(POST, path, authority, []);
      && |hs| == 4 && PseudoFirst(hs)
      && ValuesOf(hs, Ascii(":method")) == [Ascii("POST")]
      && ValuesOf(hs, Ascii(":path")) == [path]
      && ValuesOf(hs, Ascii(":authority")) == [authority]
      && ValuesOf(hs, Ascii(":scheme")) == [Ascii("http")]
  {
    HeaderNames();
    RequestHeadersOrder(POST, path, authority, []);
    RequestHeadersRead(POST, path, authority, [], Ascii(":method"));
    RequestHeadersRead(POST, path, authority, [], Ascii(":path"));
    RequestHeadersRead(POST, path, authority, [], Ascii(":authority"));
    RequestHeadersRead(POST, path, authority, [], Ascii(":scheme"));
  }

  // All the frames sent for the new stream: its headers, then DATA frames that carry the whole body in order, in
  // blocks of 8 KiB, with END_STREAM on the last of all these frames and on no other. A request without a body is its
  // headers alone. The client's side of the stream is then closed.
  lemma RequestIsComplete(streams: ClientSession, id: StreamId, headers: seq<Header>, body: Option<Bytes>,
                          after: Senders, out: seq<HttpFrame>)
    requires FlushedBy(ClientSenders(Started(streams, id, body)), after, out) && NothingReadable(after)
    ensures var first := Opening(id, headers, body);
      var all := Own([first] + out, id);
      && all == [first] + Own(out, id)
      && first.HeadersFrame? && first.id == id && first.headers == headers
      && (forall i | 0 <= i < |all| :: EndsStream(all[i]) <==> i == |all| - 1)
      && (forall i | 0 < i < |all| :: all[i].DataFrame?)
      && (forall i | 0 < i < |all| - 1 :: |all[i].data| == 8192)
      && (|all| > 1 ==> |all[|all| - 1].data| <= 8192)
      && Concat(Datas(all[1..])) == (if body.Some? then body.value else [])
      && (body.None? <==> |all| == 1)
    ensures id in after && after[id].state == HalfClosedLocal
  {
    hide NothingReadable, Own;
    var m := ClientSenders(Started(streams, id, body));
    var first := Opening(id, headers, body);
    var own := Own(out, id);
    assert m[id] == ClientSender(NewStream(body));
    FlushDelivers(m, after, out, id);
    OwnHead(out, first, id);
    var all := [first] + own;
    assert all[1..] == own;
    assert forall i | 0 < i < |all| :: all[i] == own[i - 1];
    if body.Some? {
      assert Unread(m[id]) == body.value;
    }
  }

  // ----- Receiving --------------------------------------------------------------------------

  function ClientEndIf(v: ClientView, end: bool): ClientView {
    if end then v.(state := v.state.CloseRemote()) else v
  }

  // The client session's reaction to one frame; only known streams may receive headers or data.
  function ClientHandle(streams: ClientSession, f: HttpFrame): (ClientSession, Status) {
    match f
    case HeadersFrame(id, headers, end) =>
      if id !in streams then (streams, Failed(UnknownStreamId))
      else (streams[id := ClientEndIf(streams[id].(headers := Some(headers)), end)], Running)
    case DataFrame(id, data, end) =>
      if id !in streams then (streams, Failed(UnknownStreamId))
      else (streams[id := ClientEndIf(streams[id].(body := streams[id].body + data), end)], Running)
    case ResetFrame(id) =>
      (if id in streams then streams[id := streams[id].(state := Closed)] else streams, Running)
    case OtherFrame => (streams, Running)
  }

  datatype Awaited = Response(headers: seq<Header>, body: Bytes) | NoHeaders | AwaitFailed(error: Error)

  // get_response: handle frames until the stream is closed on both sides.
  function AwaitClosed(streams: ClientSession, id: StreamId, incoming: seq<HttpFrame>): Awaited
    decreases |incoming|
  {
    if id in streams && streams[id].state.Closed? then
      match streams[id].headers
      case Some(headers) => Response(headers, streams[id].body)
      case None => NoHeaders
    else if incoming == [] then AwaitFailed(EndOfInput)
    else
      match ClientHandle(streams, incoming[0])
      case (next, Failed(error)) => AwaitFailed(error)
      case (next, _) => AwaitClosed(next, id, incoming[1..])
  }

  function Decode<Req, Resp>(desc: MethodDescriptor<Req, Resp>, host: Host, awaited: Awaited): Outcome<Resp> {
    if !awaited.Response? then Panic(UnwrapFailed)
    else
      match ParseFrameCompletely(host, awaited.body)
      case Done(Some(message)) => desc.respMarshaller.read(message)
      case Done(None) => Panic(UnwrapFailed)
      case Panic(reason) => Panic(reason)
  }

  // A call returns a value exactly when the stream closed with headers and a body that is one whole frame
  // whose message reads as that value; everything else is a panic.
  lemma DecodesIff<Req, Resp>(desc: MethodDescriptor<Req, Resp>, host: Host, awaited: Awaited, resp: Resp)
    ensures Decode(desc, host, awaited) == Done(resp)
       <==> awaited.Response? && exists message ::
              |message| < U32_LIMIT && awaited.body == Encode(message)
              && desc.respMarshaller.read(message) == Done(resp)
  {
    if awaited.Response? {
      match ParseFrameCompletely(host, awaited.body) {
        case Done(Some(message)) =>
          ParseCompletelyIffEncoded(host, awaited.body, message);
        case _ =>
      }
      forall message | |message| < U32_LIMIT && awaited.body == Encode(message)
        ensures ParseFrameCompletely(host, awaited.body) == Done(Some(message))
      {
        ParseCompletelyIffEncoded(host, awaited.body, message);
      }
    }
  }

  // Every other end of a call is a panic: on a response that never came or is no single frame, on a refused flag, and
  // where the marshaller panics.
  lemma DecodePanicsIff<Req, Resp>(desc: MethodDescriptor<Req, Resp>, host: Host, awaited: Awaited, reason: PanicReason)
    ensures Decode(desc, host, awaited) == Panic(reason) <==>
      if !awaited.Response? then reason == UnwrapFailed
      else if |awaited.body| >= 5 && awaited.body[0] == 1 then reason == CompressionNotImplemented
      else if |awaited.body| >= 5 && awaited.body[0] > 1 then reason == UnknownCompressionFlag
      else if forall message: Bytes | |message| < U32_LIMIT :: awaited.body != Encode(message) then
        reason == UnwrapFailed
      else exists message: Bytes ::
        |message| < U32_LIMIT && awaited.body == Encode(message) && desc.respMarshaller.read(message) == Panic(reason)
  {
    hide ParseFrameCompletely, Encode;
    if awaited.Response? {
      CompletelyOtherwise(host, awaited.body);
      forall message | |message| < U32_LIMIT && awaited.body == Encode(message)
        ensures ParseFrameCompletely(host, awaited.body) == Done(Some(message))
      {
        ParseCompletelyIffEncoded(host, awaited.body, message);
      }
    }
  }

  // The trailers report success.
  predicate SaysOk(trailers: seq<Header>) {
    Header(Ascii("grpc-status"), Ascii("0")) in trailers
  }

  // The body is one whole frame whose message the marshaller accepts.
  ghost predicate IsReply<Req, Resp>(desc: MethodDescriptor<Req, Resp>, body: Bytes) {
    exists message :: |message| < U32_LIMIT && body == Encode(message) && desc.respMarshaller.read(message).Done?
  }

  // The status is never looked at: "a returned value implies status 0" holds of a response exactly when its trailers
  // say 0 or its body cannot be read.
  lemma ValueImpliesOkIff<Req, Resp>(desc: MethodDescriptor<Req, Resp>, host: Host, trailers: seq<Header>, body: Bytes)
    ensures (Decode(desc, host, Response(trailers, body)).Done? ==> SaysOk(trailers))
       <==> SaysOk(trailers) || !IsReply(desc, body)
  {
    var awaited := Response(trailers, body);
    if Decode(desc, host, awaited).Done? {
      DecodesIff(desc, host, awaited, Decode(desc, host, awaited).value);
    }
    if IsReply(desc, body) {
      var message :|
        |message| < U32_LIMIT && body == Encode(message) && desc.respMarshaller.read(message).Done?;
      DecodesIff(desc, host, awaited, desc.respMarshaller.read(message).value);
    }
  }

  class GrpcClient {
    const authority: Bytes
    const host: Host
    var nextId: StreamId
    var streams: ClientSession
    // Frames written to the socket, how many more it takes, and the frames the peer is going to send.
    var sent: seq<HttpFrame>
    var budget: nat
    var incoming: seq<HttpFrame>

    // Stream ids are odd and not used again (section 5.1.1 of RFC 7540).
    ghost predicate Valid()
      reads `streams, `nextId
    {
      nextId % 2 == 1 && forall id <- streams.Keys :: id < nextId && id % 2 == 1
    }

    constructor (authority: Bytes, host: Host, budget: nat, incoming: seq<HttpFrame>)
      ensures Valid() && streams == map[] && sent == [] && nextId == 1
      ensures this.authority == authority && this.host == host && this.budget == budget && this.incoming == incoming
    {
      this.authority, this.host, this.budget, this.incoming := authority, host, budget, incoming;
      nextId, streams, sent := 1, map[], [];
    }

    method Send(f: HttpFrame) returns (ok: bool)
      modifies `sent, `budget
      ensures ok == (old(budget) > 0)
      ensures sent == (if ok then old(sent) + [f] else old(sent))
      ensures budget == (if ok then old(budget) - 1 else 0)
    {
      ok := budget > 0;
      if ok {
        sent := sent + [f];
        budget := budget - 1;
      }
    }

    // Sends one chunk of some stream that has one.
    method SendNextData() returns (next: SendStatus, ok: bool, ghost id: StreamId)
      modifies `streams, `sent, `budget
      ensures next.Nothing? ==>
        && ok && streams == old(streams) && sent == old(sent) && budget == old(budget)
        && NothingReadable(ClientSenders(streams))
      ensures next.Sent? ==>
        && id in ClientSenders(old(streams))
        && Readable(ClientSenders(old(streams))[id])
        && streams == WithClientSenders(old(streams), ReadStep(ClientSenders(old(streams)), id).0)
        && ok == (old(budget) > 0)
        && sent == (if ok then old(sent) + [ReadStep(ClientSenders(old(streams)), id).1] else old(sent))
        && budget == (if ok then old(budget) - 1 else 0)
    {
      var ready := set k | k in streams && !streams[k].state.ClosedLocal() && streams[k].data.Some?;
      if ready == {} {
        forall k <- streams.Keys ensures !Readable(ClientSender(streams[k])) {
          assert k !in ready;
        }
        return Nothing, true, 0;
      }
      var k :| k in ready;
      var (end, result, bytes) := ReadNext(ClientSender(streams[k]), MAX_CHUNK_SIZE);
      streams := streams[k := WithClientSender(streams[k], end)];
      assert streams == WithClientSenders(old(streams), ReadStep(ClientSenders(old(streams)), k).0);
      ok := Send(DataFrame(k, bytes, result.Last?));
      return Sent, ok, k;
    }

    // Opens a stream, sends its headers, then sends until no stream has data left.
    method Request(verb: Bytes, path: Bytes, extras: seq<Header>, body: Option<Bytes>)
      returns (id: Option<StreamId>, ghost after: Senders, ghost out: seq<HttpFrame>)
      requires Valid()
      modifies `nextId, `streams, `sent, `budget
      ensures Valid() && nextId == old(nextId) + 2
      ensures FlushedBy(ClientSenders(Started(old(streams), old(nextId), body)), after, out)
      ensures id.Some? ==>
        && old(budget) > 0
        && id.value == old(nextId)
        && sent == old(sent) + ([Opening(old(nextId), RequestHeaders(verb, path, authority, extras), body)] + out)
        && NothingReadable(after)
        && streams == WithClientSenders(Started(old(streams), old(nextId), body), after)
      ensures id.None? ==>
        && budget == 0
        && sent == old(sent) +
             (if old(budget) == 0 then []
              else [Opening(old(nextId), RequestHeaders(verb, path, authority, extras), body)] + out)
        && (old(budget) == 0 || !NothingReadable(after))
    {
      hide FlushedBy, Readings, ReadStep, Work, ClientSenders, WithClientSenders, RequestHeaders;
      ghost var start := Started(streams, nextId, body);
      ghost var first := Opening(nextId, RequestHeaders(verb, path, authority, extras), body);
      var streamId := nextId;
      var stream := NewStream(body);
      nextId := nextId + 2;
      streams := streams[streamId := stream];
      after, out := ClientSenders(start), [];
      FlushedByNothing(after);
      var ok := Send(HeadersFrame(streamId, RequestHeaders(verb, path, authority, extras), stream.state.ClosedLocal()));
      if !ok {
        return None, after, out;
      }
      SameClientSenders(start);
      NoReadings(after);
      ghost var picks: seq<StreamId> := [];
      while true
        invariant nextId == streamId + 2 && after.Keys == start.Keys
        invariant streams == WithClientSenders(start, after)
        invariant sent == old(sent) + ([first] + out)
        invariant |out| < old(budget) && budget == old(budget) - 1 - |out|
        invariant Readings(ClientSenders(start), picks, after, out)
        decreases Work(after)
      {
        ClientSendersReplaced(start, after);
        var next;
        ghost var chosen;
        next, ok, chosen := SendNextData();
        if next.Nothing? || !ok {
          FlushedByNothing(ClientSenders(start));
          ReadingsFlush(ClientSenders(start), ClientSenders(start), [], picks, after, out);
          assert [] + out == out;
          ClientKeys(start, after);
          if next.Sent? {
            ReplacedClientTwice(start, after, chosen);
            ClientKeys(WithClientSenders(start, after), ReadStep(after, chosen).0);
          }
          return if ok then Some(streamId) else None, after, out;
        }
        WorkDecreases(after, chosen);
        ReadingsThenOne(ClientSenders(start), picks, after, out, chosen);
        Assoc([first], out, [ReadStep(after, chosen).1]);
        Assoc(old(sent), [first] + out, [ReadStep(after, chosen).1]);
        ReplacedClientTwice(start, after, chosen);
        picks, out, after := picks + [chosen], out + [ReadStep(after, chosen).1], ReadStep(after, chosen).0;
      }
    }

    method HandleNextFrame() returns (status: Status)
      modifies `streams, `incoming
      ensures streams.Keys == old(streams).Keys
      ensures if old(incoming) == [] then status == Failed(EndOfInput) && streams == old(streams) && incoming == []
              else incoming == old(incoming)[1..] && (streams, status) == ClientHandle(old(streams), old(incoming)[0])
    {
      if incoming == [] {
        return Failed(EndOfInput);
      }
      var f := incoming[0];
      incoming := incoming[1..];
      status := Running;
      if f.ResetFrame? {
        if f.id in streams {
          streams := streams[f.id := streams[f.id].(state := Closed)];
        }
      } else if !f.OtherFrame? {
        if f.id !in streams {
          return Failed(UnknownStreamId);
        }
        var stream := streams[f.id];
        stream := if f.HeadersFrame? then stream.(headers := Some(f.headers))
                  else stream.(body := stream.body + f.data);
        if f.end {
          stream := stream.(state := stream.state.CloseRemote());
        }
        streams := streams[f.id := stream];
      }
    }

    method GetResponse(id: StreamId) returns (awaited: Awaited)
      modifies `streams, `incoming
      ensures streams.Keys == old(streams).Keys
      ensures awaited ==
        if id !in old(streams) then AwaitFailed(UnknownStreamId) else AwaitClosed(old(streams), id, old(incoming))
    {
      if id !in streams {
        return AwaitFailed(UnknownStreamId);
      }
      while true
        invariant id in streams && streams.Keys == old(streams).Keys
        invariant AwaitClosed(old(streams), id, old(incoming)) == AwaitClosed(streams, id, incoming)
        decreases |incoming|
      {
        if streams[id].state == Closed {
          match streams[id].headers {
            case Some(headers) =>
              return Response(headers, streams[id].body);
            case None =>
              return NoHeaders;
          }
        }
        var status := HandleNextFrame();
        if status.Failed? {
          return AwaitFailed(status.error);
        }
      }
    }

    // One unary call: write, frame, send, wait, unframe, read. Every failure on the way is a panic.
    method Call<Req, Resp>(req: Req, desc: MethodDescriptor<Req, Resp>)
      returns (r: Outcome<Resp>, ghost after: Senders, ghost out: seq<HttpFrame>)
      requires Valid()
      modifies this
      ensures Valid()
      ensures match desc.reqMarshaller.write(req)
        case Panic(reason) =>
          r == Panic(reason) && sent == old(sent) && streams == old(streams) && nextId == old(nextId)
        case Done(message) =>
          var started := Started(old(streams), old(nextId), Some(Encode(message)));
          var opening := Opening(old(nextId), RequestHeaders(POST, desc.name, authority, []), Some(Encode(message)));
          && nextId == old(nextId) + 2
          && FlushedBy(ClientSenders(started), after, out)
          && if old(budget) > 0 && NothingReadable(after) then
               && sent == old(sent) + ([opening] + out)
               && r == Decode(desc, host, AwaitClosed(WithClientSenders(started, after), old(nextId), old(incoming)))
             else
               && r == Panic(UnwrapFailed) && budget == 0
               && sent == old(sent) + if old(budget) == 0 then [] else [opening] + out
    {
      after, out := map[], [];
      var reqSerialized := desc.reqMarshaller.write(req);
      if reqSerialized.Panic? {
        return Panic(reqSerialized.reason), after, out;
      }
      var body := WriteFrame(host, [], reqSerialized.value);
      assert body == Encode(reqSerialized.value);
      hide FlushedBy, NothingReadable, WithClientSenders, ClientSenders, AwaitClosed, Started, Opening, RequestHeaders,
        Encode;
      var id;
      id, after, out := Request(POST, desc.name, [], Some(body));
      if id.None? {
        return Panic(UnwrapFailed), after, out;
      }
      StartedIsThere(old(streams), old(nextId), Some(body), after, out);
      var response := GetResponse(id.value);
      if !response.Response? {
        return Panic(UnwrapFailed), after, out;
      }
      var parsed := ParseFrameCompletely(host, response.body);
      match parsed {
        case Panic(reason) =>
          return Panic(reason), after, out;
        case Done(None) =>
          return Panic(UnwrapFailed), after, out;
        case Done(Some(message)) =>
          return desc.respMarshaller.read(message), after, out;
      }
    }
  }

  lemma ClientKeys(streams: ClientSession, m: Senders)
    requires m.Keys == streams.Keys
    ensures WithClientSenders(streams, m).Keys == streams.Keys
  {
  }

  lemma SameClientSenders(streams: ClientSession)
    ensures ClientSenders(streams).Keys == streams.Keys && WithClientSenders(streams, ClientSenders(streams)) == streams
  {
  }

  lemma ClientSendersReplaced(streams: ClientSession, m: Senders)
    requires m.Keys == streams.Keys
    ensures ClientSenders(WithClientSenders(streams, m)) == m
  {
  }

  lemma ReplacedClientTwice(streams: ClientSession, mid: Senders, id: StreamId)
    requires mid.Keys == streams.Keys && id in mid
    ensures ReadStep(mid, id).0.Keys == streams.Keys
    ensures WithClientSenders(WithClientSenders(streams, mid), ReadStep(mid, id).0)
         == WithClientSenders(streams, ReadStep(mid, id).0)
  {
  }

  lemma StartedIsThere(streams: ClientSession, id: StreamId, body: Option<Bytes>, after: Senders, out: seq<HttpFrame>)
    requires FlushedBy(ClientSenders(Started(streams, id, body)), after, out)
    ensures id in WithClientSenders(Started(streams, id, body), after)
  {
  }
}

// Values of a server stream and what each stream operation does to them: GrpcStream in src/server.rs.
module Streams {
  import opened Common
  import opened Utf8
  import opened Codec
  import opened Framing
  import opened Method
  import opened Batch

  type StreamId = nat

  datatype Header = Header(name: Bytes, value: Bytes)

  // ":path"
  const PATH_NAME: Bytes := [0x3A, 0x70, 0x61, 0x74, 0x68]

  // Section 5.1 of RFC 7540.
  datatype StreamState = Open | HalfClosedRemote | HalfClosedLocal | Closed {
    predicate ClosedLocal() {
      HalfClosedLocal? || Closed?
    }

    predicate ClosedRemote() {
      HalfClosedRemote? || Closed?
    }

    function CloseLocal(): StreamState {
      if HalfClosedRemote? then Closed else HalfClosedLocal
    }

    function CloseRemote(): StreamState {
      if HalfClosedLocal? then Closed else HalfClosedRemote
    }
  }

  // A state is the pair of its two sides, and closing one side leaves the other as it was.
  lemma SidesCloseApart(s: StreamState)
    requires !s.Closed?
    ensures s.CloseLocal().ClosedLocal() && (s.CloseLocal().ClosedRemote() <==> s.ClosedRemote())
    ensures s.CloseRemote().ClosedRemote() && (s.CloseRemote().ClosedLocal() <==> s.ClosedLocal())
    ensures s.ClosedLocal() <==> s == HalfClosedLocal
    ensures s.ClosedRemote() <==> s == HalfClosedRemote
    ensures Closed.ClosedLocal() && Closed.ClosedRemote()
  {
  }

  // Cursor<Vec<u8>>, whose position never passes the end.
  datatype CursorParts = Cursor(bytes: Bytes, position: nat)
  type Cursor = c: CursorParts | c.position <= |c.bytes| witness Cursor([], 0)

  datatype StreamView = StreamView(
    state: StreamState,
    headers: Option<seq<Header>>,
    data: Option<Cursor>,
    path: Bytes,
    reqBuf: Bytes,
    respBuf: Bytes,
    log: seq<Dispatch>,
    received: Bytes)

  const FRESH: StreamView := StreamView(Open, None, None, [], [], [], [], [])

  // ----- Headers ----------------------------------------------------------------------------

  // The path after reading the headers in order; reading stops with a panic at a path that is not UTF-8.
  function ReadPath(path: Bytes, headers: seq<Header>): (Bytes, Outcome<()>)
    decreases |headers|
  {
    if headers == [] then (path, Done(()))
    else if headers[0].name != PATH_NAME then ReadPath(path, headers[1..])
    else if !ValidUtf8(headers[0].value) then (path, Panic(InvalidUtf8))
    else ReadPath(headers[0].value, headers[1..])
  }

  // The index of the first :path header that is not UTF-8, or the number of headers.
  function FirstBadPath(headers: seq<Header>): (k: nat)
    ensures k <= |headers|
    ensures forall i | 0 <= i < k :: headers[i].name == Ascii(":path") ==> ValidUtf8(headers[i].value)
    ensures k < |headers| ==> headers[k].name == Ascii(":path") && !ValidUtf8(headers[k].value)
  {
    if headers == [] || (headers[0].name == Ascii(":path") && !ValidUtf8(headers[0].value)) then 0
    else
      var k := FirstBadPath(headers[1..]);
      assert forall i | 0 < i < 1 + k :: headers[i] == headers[1..][i - 1];
      1 + k
  }

  // Headers are read up to the first :path that is not UTF-8, which makes the call panic; of the :path headers read
  // the last one wins.
  lemma {:induction false} LastPathWins(path: Bytes, headers: seq<Header>)
    ensures var k := FirstBadPath(headers);
      var (end, outcome) := ReadPath(path, headers);
      && outcome == (if k == |headers| then Done(()) else Panic(InvalidUtf8))
      && ((forall i | 0 <= i < k :: headers[i].name != Ascii(":path")) ==> end == path)
      && (forall i | 0 <= i < k && headers[i].name == Ascii(":path")
                     && (forall j | i < j < k :: headers[j].name != Ascii(":path")) ::
            end == headers[i].value)
    decreases |headers|
  {
    hide ValidUtf8;
    PathName();
    if headers != [] && FirstBadPath(headers) > 0 {
      var h, tail, k := headers[0], headers[1..], FirstBadPath(headers);
      assert forall j | 0 <= j < |tail| :: tail[j] == headers[j + 1];
      LastPathWins(if h.name == PATH_NAME then h.value else path, tail);
      var end := ReadPath(path, headers).0;
      if forall i | 0 <= i < k :: headers[i].name != PATH_NAME {
        assert forall i | 0 <= i < k - 1 :: tail[i].name != PATH_NAME;
      }
      forall i | 0 <= i < k && headers[i].name == PATH_NAME
                 && (forall j | i < j < k :: headers[j].name != PATH_NAME)
        ensures end == headers[i].value
      {
        if i > 0 {
          assert tail[i - 1].name == PATH_NAME;
          assert forall j | i - 1 < j < k - 1 :: tail[j].name != PATH_NAME;
        } else {
          assert forall j | 0 <= j < k - 1 :: tail[j].name != PATH_NAME;
        }
      }
    }
  }

  lemma PathName()
    ensures PATH_NAME == Ascii(":path")
  {
  }

  function HeadersSpec(v: StreamView, headers: seq<Header>): (StreamView, Outcome<()>) {
    var (path, outcome) := ReadPath(v.path, headers);
    (v.(path := path, headers := if outcome.Done? then Some(headers) else v.headers), outcome)
  }

  // Setting headers stores the whole list, unless it panics, and changes nothing else but the path.
  lemma HeadersStored(v: StreamView, headers: seq<Header>)
    ensures var (next, outcome) := HeadersSpec(v, headers);
      && (outcome.Done? <==> FirstBadPath(headers) == |headers|)
      && next.headers == (if FirstBadPath(headers) == |headers| then Some(headers) else v.headers)
      && next.(path := v.path, headers := v.headers) == v
  {
    LastPathWins(v.path, headers);
  }

  // ----- Data in ----------------------------------------------------------------------------

  ghost function DataSpec(service: Service, v: StreamView, data: Bytes): (StreamView, Outcome<()>) {
    var b := RunBatch(service, v.path, v.reqBuf + data);
    (v.(reqBuf := b.rest,
        respBuf := v.respBuf + EncodeAll(Replies(b.log)),
        log := v.log + b.log,
        received := v.received + data),
     b.outcome)
  }

  // Chunks arriving one by one, up to the first panic.
  ghost function FeedAll(service: Service, v: StreamView, chunks: seq<Bytes>): (StreamView, Outcome<()>)
    decreases |chunks|
  {
    if chunks == [] then (v, Done(()))
    else
      var (next, outcome) := DataSpec(service, v, chunks[0]);
      if outcome.Panic? then (next, outcome) else FeedAll(service, next, chunks[1..])
  }

  // No complete frame waits in the request buffer.
  ghost predicate Settled(v: StreamView) {
    Parse(v.reqBuf).Incomplete?
  }

  // Every byte received is accounted for, and the replies are exactly those the service gives.
  ghost predicate Conserves(service: Service, v: StreamView) {
    && v.received == EncodeAll(Messages(v.log)) + v.reqBuf
    && v.respBuf == EncodeAll(Replies(v.log))
    && AllShort(Messages(v.log))
    && Genuine(service, v.log)
  }

  // Byte conservation is kept by every chunk of data, even when the service panics.
  lemma DataConserves(service: Service, v: StreamView, data: Bytes)
    requires Conserves(service, v)
    ensures var (next, outcome) := DataSpec(service, v, data);
      Conserves(service, next) && (outcome.Done? ==> Settled(next))
  {
    var b := RunBatch(service, v.path, v.reqBuf + data);
    BatchConserves(service, v.path, v.reqBuf + data);
    RepliesAppend(v.log, b.log);
    MessagesAppend(v.log, b.log);
    var done := EncodeAll(Messages(v.log));
    Assoc(done, v.reqBuf, data);
    Assoc(done, EncodeAll(Messages(b.log)), b.rest);
  }

  lemma DataCompose(service: Service, v: StreamView, a: Bytes, b: Bytes)
    ensures var (first, outcome) := DataSpec(service, v, a);
      DataSpec(service, v, a + b) ==
        if outcome.Panic? then (first.(reqBuf := first.reqBuf + b, received := first.received + b), outcome)
        else DataSpec(service, first, b)
  {
    var batch := RunBatch(service, v.path, v.reqBuf + a);
    BatchAppend(service, v.path, v.reqBuf + a, b);
    Assoc(v.reqBuf, a, b);
    Assoc(v.received, a, b);
    if batch.outcome.Done? {
      var more := RunBatch(service, v.path, batch.rest + b);
      RepliesAppend(batch.log, more.log);
      Assoc(v.respBuf, EncodeAll(Replies(batch.log)), EncodeAll(Replies(more.log)));
      Assoc(v.log, batch.log, more.log);
    }
  }

  // Chunking independence: however the bytes are split, the same dispatches, replies and outcome come about.
  // After a panic only the bytes that were never fed are missing.
  lemma {:induction false} ChunkingIndependence(service: Service, v: StreamView, chunks: seq<Bytes>)
    requires Settled(v)
    ensures var (apart, outcome) := FeedAll(service, v, chunks);
      var (whole, outcome') := DataSpec(service, v, Concat(chunks));
      && outcome == outcome'
      && (outcome.Done? ==> apart == whole && Settled(whole))
      && (outcome.Panic? ==>
            exists unfed: Bytes :: whole == apart.(reqBuf := apart.reqBuf + unfed, received := apart.received + unfed))
    decreases |chunks|
  {
    if chunks == [] {
      assert v.reqBuf + [] == v.reqBuf && v.received + [] == v.received && v.log + [] == v.log;
      assert v.respBuf + [] == v.respBuf;
    } else {
      var rest := Concat(chunks[1..]);
      var (next, outcome) := DataSpec(service, v, chunks[0]);
      DataCompose(service, v, chunks[0], rest);
      BatchConserves(service, v.path, v.reqBuf + chunks[0]);
      if outcome.Done? {
        ChunkingIndependence(service, next, chunks[1..]);
      }
    }
  }

  // ----- Data out ---------------------------------------------------------------------------

  // StreamDataChunk, with the Closed error of get_data_chunk as a further case.
  datatype ChunkResult = ClosedError | Unavailable | Last(size: nat) | Chunk(size: nat)

  // The sending half of a stream: its state and the data still to be read out of it.
  datatype Sender = Sender(state: StreamState, data: Option<Cursor>)

  function Unread(s: Sender): Bytes {
    if s.state.ClosedLocal() || s.data.None? then [] else s.data.value.bytes[s.data.value.position..]
  }

  function Min(a: nat, b: nat): nat {
    if a <= b then a else b
  }

  // get_data_chunk with a buffer of the given capacity: the new half, the result, and the bytes copied out.
  function ReadNext(s: Sender, capacity: nat): (Sender, ChunkResult, Bytes) {
    if s.state.ClosedLocal() then (s, ClosedError, [])
    else match s.data
      case None => (s, Unavailable, [])
      case Some(cursor) =>
        var unread := cursor.bytes[cursor.position..];
        var n := Min(capacity, |unread|);
        var moved := Some(Cursor(cursor.bytes, cursor.position + n));
        if n == |unread| then (Sender(s.state.CloseLocal(), moved), Last(n), unread[..n])
        else (Sender(s.state, moved), Chunk(n), unread[..n])
  }

  function SenderOf(v: StreamView): Sender {
    Sender(v.state, v.data)
  }

  function WithSender(v: StreamView, s: Sender): StreamView {
    v.(state := s.state, data := s.data)
  }
}

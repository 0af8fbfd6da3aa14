// The mutable server connection of src/server.rs: one loop turn receives a frame, answers, flushes and reaps.
module Connection {
  import opened Common
  import opened Codec
  import opened Method
  import opened Streams
  import opened GrpcStreams
  import opened Drain
  import opened Sessions
  import opened Isolation
  import opened Responses
  import opened Flush

  class GrpcServerConnection {
    const service: Service
    const host: Host
    var streams: map<StreamId, GrpcStream>
    // Frames written to the socket, and how many more it will take before it fails.
    var sent: seq<HttpFrame>
    var budget: nat

    // Streams are owned: no object is in the map twice.
    ghost predicate Owned()
      reads `streams, streams.Values
    {
      && (forall id, id' | id in streams && id' in streams && id != id' :: streams[id] != streams[id'])
      && (forall id | id in streams :: streams[id].service == service && streams[id].host == host)
    }

    ghost function View(): Session
      reads `streams, streams.Values
    {
      map id | id in streams :: streams[id].View()
    }

    constructor (service: Service, host: Host, budget: nat)
      ensures Owned() && View() == map[] && sent == [] && this.budget == budget
      ensures this.service == service && this.host == host
      ensures fresh(streams.Values)
    {
      this.service := service;
      this.host := host;
      this.budget := budget;
      streams, sent := map[], [];
    }

    method Send(f: HttpFrame) returns (ok: bool)
      modifies `sent, `budget
      ensures ok == (old(budget) > 0)
      ensures sent == (if ok then old(sent) + [f] else old(sent))
      ensures budget == (if ok then old(budget) - 1 else 0)
    {
      ok := budget > 0;
      if ok {
        sent := sent + [f];
        budget := budget - 1;
      }
    }

    // The stream factory.
    method Create(id: StreamId) returns (stream: GrpcStream)
      ensures fresh(stream) && stream.View() == FRESH
      ensures stream.service == service && stream.host == host
    {
      stream := new GrpcStream.WithId(id, service, host);
    }

    // Headers for a stream the session does not know yet: it is inserted only once they are accepted.
    method OpenStream(id: StreamId, headers: seq<Header>) returns (status: Status)
      requires Owned() && id !in streams
      modifies `streams
      ensures Owned() && fresh(streams.Values - old(streams.Values))
      ensures (View(), status) == HeadersResult(old(View()), id, headers)
    {
      hide HeadersSpec;
      var stream := Create(id);
      var outcome := stream.SetHeaders(headers);
      assert View() == old(View());
      if outcome.Panic? {
        return Panicked(outcome.reason);
      }
      Insert(id, stream);
      return Running;
    }

    method Insert(id: StreamId, stream: GrpcStream)
      requires Owned() && stream !in streams.Values && stream.service == service && stream.host == host
      modifies `streams
      ensures Owned() && streams == old(streams)[id := stream]
      ensures View() == old(View())[id := stream.View()]
    {
      streams := streams[id := stream];
    }

    method NewHeaders(id: StreamId, headers: seq<Header>) returns (status: Status)
      requires Owned()
      modifies `streams, streams.Values
      ensures Owned() && fresh(streams.Values - old(streams.Values))
      ensures (View(), status) == HeadersResult(old(View()), id, headers)
    {
      if id in streams {
        var outcome := streams[id].SetHeaders(headers);
        assert View() == old(View())[id := streams[id].View()];
        return StatusOf(outcome);
      }
      status := OpenStream(id, headers);
    }

    method NewData(id: StreamId, data: Bytes) returns (status: Status)
      requires Owned()
      modifies streams.Values
      ensures Owned()
      ensures (View(), status) == DataResult(service, old(View()), id, data)
    {
      if id !in streams {
        return Failed(UnknownStreamId);
      }
      var outcome := streams[id].NewDataChunk(data);
      assert View() == old(View())[id := streams[id].View()];
      return StatusOf(outcome);
    }

    method EndOfStream(id: StreamId)
      requires Owned() && id in streams
      modifies streams.Values
      ensures Owned()
      ensures View() == old(View())[id := EndIf(old(View())[id], true)]
    {
      streams[id].SetState(streams[id].state.CloseRemote());
    }

    method ResetStream(id: StreamId)
      requires Owned()
      modifies streams.Values
      ensures Owned()
      ensures View() == if id in streams then old(View())[id := old(View())[id].(state := Closed)] else old(View())
    {
      if id in streams {
        streams[id].SetState(Closed);
      }
    }

    // The session's reaction to one frame from the peer.
    method HandleNextFrame(f: HttpFrame) returns (status: Status)
      requires Owned()
      modifies `streams, streams.Values
      ensures Owned() && fresh(streams.Values - old(streams.Values))
      ensures (View(), status) == HandleFrame(service, old(View()), f)
    {
      HandleFrameParts(service, View(), f);
      status := Running;
      if f.HeadersFrame? {
        status := NewHeaders(f.id, f.headers);
      } else if f.DataFrame? {
        status := NewData(f.id, f.data);
      } else if f.ResetFrame? {
        ResetStream(f.id);
      }
      if status.Running? && EndsStream(f) {
        EndOfStream(f.id);
      }
    }

    // One entry per stream whose response buffer is not empty, in whatever order the map yields.
    method HandleRequests() returns (responses: seq<Response>)
      requires Owned()
      ensures IsResponses(View(), responses)
    {
      responses := [];
      var todo := streams.Keys;
      while todo != {}
        invariant todo <= streams.Keys
        invariant forall i, j | 0 <= i < j < |responses| :: responses[i].0 != responses[j].0
        invariant forall r <- responses :: r.0 in streams && r.0 !in todo && r.1 == streams[r.0].respBuf && r.1 != []
        invariant forall id | id in streams && id !in todo && streams[id].respBuf != [] ::
                    (id, streams[id].respBuf) in responses
        decreases todo
      {
        var id :| id in todo;
        todo := todo - {id};
        if streams[id].respBuf != [] {
          responses := responses + [(id, streams[id].respBuf)];
        }
      }
    }

    // Headers, data and trailers for one response; stops at the first send that fails.
    method SendResponse(r: Response) returns (ok: bool)
      modifies `sent, `budget
      ensures ok == (old(budget) >= 3)
      ensures sent == old(sent) + (if ok then Triple(r) else Triple(r)[..old(budget)])
      ensures budget == (if ok then old(budget) - 3 else 0)
    {
      ok := Send(HeadersFrame(r.0, RESPONSE_HEADERS, false));
      if ok {
        ok := Send(DataFrame(r.0, r.1, false));
      }
      if ok {
        ok := Send(HeadersFrame(r.0, TRAILERS, true));
      }
    }

    method PrepareResponses(responses: seq<Response>) returns (status: Status)
      modifies `sent, `budget
      ensures var out := Triples(responses);
        && status == (if |out| <= old(budget) then Running else Failed(WireClosed))
        && sent == old(sent) + (if |out| <= old(budget) then out else out[..old(budget)])
        && budget == (if |out| <= old(budget) then old(budget) - |out| else 0)
    {
      assert Triples(responses[..0]) == [];
      for i := 0 to |responses|
        invariant |Triples(responses[..i])| <= old(budget)
        invariant budget == old(budget) - |Triples(responses[..i])|
        invariant sent == old(sent) + Triples(responses[..i])
      {
        SplitTriples(responses, i);
        var ok := SendResponse(responses[i]);
        if !ok {
          TruncateTriples(old(sent), responses, i, old(budget));
          return Failed(WireClosed);
        }
        Assoc(old(sent), Triples(responses[..i]), Triple(responses[i]));
      }
      assert responses[..|responses|] == responses;
      return Running;
    }

    // The next chunk of one stream that may still send, copied to the front of buf.
    method ReadFrom(id: StreamId, buf: array<Byte>) returns (chunk: Option<HttpFrame>)
      requires Owned() && buf.Length == MAX_CHUNK_SIZE
      requires id in streams && !streams[id].state.ClosedLocal()
      modifies buf, streams.Values
      ensures Owned()
      ensures chunk.None? <==> !Readable(SendersOf(old(View()))[id])
      ensures chunk.None? ==> View() == old(View())
      ensures chunk.Some? ==>
        && chunk.value.DataFrame? && chunk.value.id == id
        && chunk.value == ReadStep(SendersOf(old(View())), id).1
        && View() == WithSenders(old(View()), ReadStep(SendersOf(old(View())), id).0)
    {
      hide SendersOf, WithSenders, ReadNext;
      ghost var v := View()[id];
      ReadCases(SenderOf(v), MAX_CHUNK_SIZE);
      var result := streams[id].GetDataChunk(buf);
      ReplaceSender(old(View()), id, ReadNext(SenderOf(v), MAX_CHUNK_SIZE).0);
      assert View() == old(View())[id := WithSender(v, ReadNext(SenderOf(v), MAX_CHUNK_SIZE).0)];
      if result.Last? || result.Chunk? {
        return Some(DataFrame(id, buf[..result.size], result.Last?));
      }
      return None;
    }

    lemma SenderKeys()
      ensures SendersOf(View()).Keys == streams.Keys
    {
    }

    // A stream whose sending side is closed has nothing to read.
    lemma ClosedIsNotReadable(id: StreamId)
      requires id in streams && streams[id].state.ClosedLocal()
      ensures id in SendersOf(View()) && !Readable(SendersOf(View())[id])
    {
    }

    // The first chunk of some stream that has one; the order of the map decides which.
    method GetNextChunk(buf: array<Byte>) returns (chunk: Option<HttpFrame>)
      requires Owned() && buf.Length == MAX_CHUNK_SIZE
      modifies buf, streams.Values
      ensures Owned()
      ensures chunk.None? ==> View() == old(View()) && NothingReadable(SendersOf(View()))
      ensures chunk.Some? ==>
        && chunk.value.DataFrame?
        && chunk.value.id in SendersOf(old(View()))
        && Readable(SendersOf(old(View()))[chunk.value.id])
        && chunk.value == ReadStep(SendersOf(old(View())), chunk.value.id).1
        && View() == WithSenders(old(View()), ReadStep(SendersOf(old(View())), chunk.value.id).0)
    {
      hide ReadStep, WithSenders, Readable, View, Owned, SendersOf;
      var todo := streams.Keys;
      SenderKeys();
      while todo != {}
        invariant todo <= streams.Keys
        invariant Owned() && View() == old(View()) && SendersOf(View()).Keys == streams.Keys
        invariant forall id | id in streams && id !in todo :: !Readable(SendersOf(View())[id])
        decreases todo
      {
        var id :| id in todo;
        todo := todo - {id};
        if !streams[id].state.ClosedLocal() {
          chunk := ReadFrom(id, buf);
          if chunk.Some? {
            return;
          }
        } else {
          ClosedIsNotReadable(id);
        }
      }
      return None;
    }

    // SimplePrioritizer and send_next_data: at most one chunk goes out.
    method SendNextData() returns (next: SendStatus, status: Status, ghost id: StreamId)
      requires Owned()
      modifies `sent, `budget, streams.Values
      ensures Owned()
      ensures next.Nothing? ==>
        && status.Running? && View() == old(View()) && sent == old(sent) && budget == old(budget)
        && NothingReadable(SendersOf(View()))
      ensures next.Sent? ==>
        && id in SendersOf(old(View()))
        && Readable(SendersOf(old(View()))[id])
        && View() == WithSenders(old(View()), ReadStep(SendersOf(old(View())), id).0)
        && status == (if old(budget) > 0 then Running else Failed(WireClosed))
        && sent == (if old(budget) > 0 then old(sent) + [ReadStep(SendersOf(old(View())), id).1] else old(sent))
        && budget == if old(budget) > 0 then old(budget) - 1 else 0
    {
      hide ReadStep, NothingReadable, View, Owned, SendersOf, WithSenders;
      var buf := new Byte[MAX_CHUNK_SIZE];
      var chunk := GetNextChunk(buf);
      if chunk.None? {
        return Nothing, Running, 0;
      }
      var ok := Send(chunk.value);
      return Sent, if ok then Running else Failed(WireClosed), chunk.value.id;
    }

    // Sends chunks until no stream has one, and terminates because every chunk uses up some of the work left.
    method FlushStreams() returns (status: Status, ghost mid: Senders)
      requires Owned()
      modifies `sent, `budget, streams.Values
      ensures Owned()
      ensures old(sent) <= sent
      ensures FlushedBy(SendersOf(old(View())), mid, sent[|old(sent)|..])
      ensures status == if NothingReadable(mid) then Running else Failed(WireClosed)
      ensures status.Running? ==> View() == WithSenders(old(View()), mid)
      ensures budget == old(budget) - (|sent| - |old(sent)|)
      ensures NothingReadable(SendersOf(old(View()))) ==> sent == old(sent) && status.Running? && View() == old(View())
    {
      hide FlushedBy, Readings, ReadStep, View, Owned, Work, SendersOf, WithSenders;
      ghost var start := View();
      mid := SendersOf(start);
      SameSenders(start);
      NoReadings(mid);
      ghost var picks: seq<StreamId> := [];
      ghost var out: seq<HttpFrame> := [];
      while true
        invariant Owned()
        invariant mid.Keys == start.Keys && View() == WithSenders(start, mid)
        invariant sent == old(sent) + out
        invariant |out| <= old(budget) && budget == old(budget) - |out|
        invariant Readings(SendersOf(start), picks, mid, out)
        decreases Work(mid)
      {
        var next;
        ghost var id;
        SendersReplaced(start, mid);
        next, status, id := SendNextData();
        if next.Nothing? || status.Failed? {
          FlushedByNothing(SendersOf(start));
          NothingRead(SendersOf(start), picks, mid, out);
          ReadingsFlush(SendersOf(start), SendersOf(start), [], picks, mid, out);
          assert [] + out == sent[|old(sent)|..];
          return;
        }
        WorkDecreases(mid, id);
        ReadingsThenOne(SendersOf(start), picks, mid, out, id);
        Assoc(old(sent), out, [ReadStep(mid, id).1]);
        ReplacedTwice(start, mid, id);
        picks, out, mid := picks + [id], out + [ReadStep(mid, id).1], ReadStep(mid, id).0;
      }
    }

    // Streams closed in both directions leave the session.
    method ReapStreams()
      requires Owned()
      modifies `streams
      ensures Owned() && streams.Values <= old(streams.Values)
      ensures View() == Reap(old(View()))
    {
      streams := map id | id in streams && streams[id].state != Closed :: streams[id];
    }

    // One turn of the loop: handle a frame, answer, flush, reap.
    method HandleNext(f: HttpFrame) returns (status: Status, ghost responses: seq<Response>)
      requires Owned() && SessionInvariant(service, View())
      modifies `streams, `sent, `budget, streams.Values
      ensures Owned() && fresh(streams.Values - old(streams.Values))
      ensures var (next, handled) := HandleFrame(service, old(View()), f);
        if !handled.Running? then
          status == handled && sent == old(sent) && View() == next
        else
          && IsResponses(next, responses)
          && status == (if |Triples(responses)| <= old(budget) then Running else Failed(WireClosed))
          && sent == old(sent) + (if status.Running? then Triples(responses) else Triples(responses)[..old(budget)])
          && View() == (if status.Running? then Reap(next) else next)
          && (status.Running? ==> SessionInvariant(service, View()))
    {
      hide HandleFrame, SessionInvariant, IsResponses, Owned, View, Triples, SendersOf, WithSenders, FlushedBy;
      responses := [];
      status := HandleNextFrame(f);
      if !status.Running? {
        return;
      }
      FrameKeepsInvariant(service, old(View()), f);
      var answers := HandleRequests();
      responses := answers;
      status := PrepareResponses(answers);
      if status.Failed? {
        return;
      }
      NothingToFlush(service, View());
      ghost var mid;
      status, mid := FlushStreams();
      ReapKeepsInvariant(service, View());
      ReapStreams();
    }

    // Turns until the peer sends nothing more, or a turn fails or panics.
    method Run(frames: seq<HttpFrame>) returns (status: Status, ghost passes: seq<Pass>)
      requires Owned() && SessionInvariant(service, View())
      modifies `streams, `sent, `budget, streams.Values
      ensures Frames(passes) <= frames
      ensures RunOk(service, old(View()), passes)
      ensures status == Failed(EndOfInput) ==>
        && Frames(passes) == frames
        && View() == RunEnd(service, old(View()), frames)
        && sent == old(sent) + Output(passes)
      ensures status != Failed(EndOfInput) ==>
        && |passes| < |frames|
        && var (next, handled) := HandleFrame(service, RunEnd(service, old(View()), Frames(passes)), frames[|passes|]);
           && View() == next
           && if !handled.Running? then
             status == handled && sent == old(sent) + Output(passes)
           else
             && status == Failed(WireClosed)
             && exists rs, n ::
                  IsResponses(next, rs) && 0 <= n < |Triples(rs)|
                  && sent == old(sent) + Output(passes) + Triples(rs)[..n]
    {
      hide HandleFrame, SessionInvariant, IsResponses, PassOk, AfterPass, Owned, View, Triples, RunOk, RunEnd, Output;
      passes := [];
      var i := 0;
      NoPasses(service, View());
      while i < |frames|
        invariant 0 <= i <= |frames| && Frames(passes) == frames[..i]
        invariant Owned() && fresh(streams.Values - old(streams.Values))
        invariant SessionInvariant(service, View())
        invariant RunOk(service, old(View()), passes)
        invariant View() == RunEnd(service, old(View()), Frames(passes))
        invariant sent == old(sent) + Output(passes)
      {
        ghost var responses;
        ghost var room, already := budget, sent;
        FrameFailure(service, View(), frames[i]);
        status, responses := HandleNext(frames[i]);
        if !status.Running? {
          if status == Failed(WireClosed) {
            assert sent == already + Triples(responses)[..room];
          }
          return;
        }
        OnePass(service, RunEnd(service, old(View()), Frames(passes)), Pass(frames[i], responses));
        RunAppend(service, old(View()), passes, Pass(frames[i], responses));
        Assoc(old(sent), Output(passes), Triples(responses));
        passes := passes + [Pass(frames[i], responses)];
        i := i + 1;
      }
      return Failed(EndOfInput), passes;
    }
  }

  lemma NothingToFlush(service: Service, s: Session)
    requires SessionInvariant(service, s)
    ensures NothingReadable(SendersOf(s))
  {
  }

  lemma ReadCases(s: Sender, capacity: nat)
    requires !s.state.ClosedLocal()
    ensures var (next, result, bytes) := ReadNext(s, capacity);
      && (result.Last? || result.Chunk? <==> Readable(s))
      && (!Readable(s) ==> next == s)
      && (result.Last? || result.Chunk? ==> result.size == |bytes|)
  {
  }

  lemma ReplaceSender(s: Session, id: StreamId, half: Sender)
    requires id in s
    ensures id in SendersOf(s) && SendersOf(s)[id] == SenderOf(s[id])
    ensures WithSenders(s, SendersOf(s)[id := half]) == s[id := WithSender(s[id], half)]
    ensures half == SenderOf(s[id]) ==> WithSenders(s, SendersOf(s)[id := half]) == s
  {
    assert half == SenderOf(s[id]) ==> WithSender(s[id], half) == s[id];
  }

  lemma SameSenders(s: Session)
    ensures SendersOf(s).Keys == s.Keys && WithSenders(s, SendersOf(s)) == s
  {
  }

  lemma SendersReplaced(s: Session, m: Senders)
    requires m.Keys == s.Keys
    ensures SendersOf(WithSenders(s, m)) == m
  {
  }

  lemma ReplacedTwice(s: Session, mid: Senders, id: StreamId)
    requires mid.Keys == s.Keys && id in s
    ensures ReadStep(mid, id).0.Keys == s.Keys
    ensures WithSenders(WithSenders(s, mid), ReadStep(mid, id).0) == WithSenders(s, ReadStep(mid, id).0)
  {
  }

  lemma ReapKeepsInvariant(service: Service, s: Session)
    requires SessionInvariant(service, s)
    ensures SessionInvariant(service, Reap(s))
  {
  }

  lemma NoPasses(service: Service, s: Session)
    ensures Frames([]) == [] && Output([]) == [] && RunOk(service, s, []) && RunEnd(service, s, []) == s
  {
  }

  lemma FrameFailure(service: Service, s: Session, f: HttpFrame)
    ensures HandleFrame(service, s, f).1.Failed? ==> HandleFrame(service, s, f).1 == Failed(UnknownStreamId)
  {
  }

  lemma OnePass(service: Service, s: Session, p: Pass)
    requires HandleFrame(service, s, p.frame).1.Running? && IsResponses(HandleFrame(service, s, p.frame).0, p.responses)
    ensures PassOk(service, s, p) && AfterPass(service, s, p.frame) == Reap(HandleFrame(service, s, p.frame).0)
  {
  }

  // A run extended by one more good pass.
  lemma {:induction false} RunAppend(service: Service, s: Session, passes: seq<Pass>, p: Pass)
    requires RunOk(service, s, passes) && PassOk(service, RunEnd(service, s, Frames(passes)), p)
    ensures RunOk(service, s, passes + [p])
    ensures RunEnd(service, s, Frames(passes + [p])) == AfterPass(service, RunEnd(service, s, Frames(passes)), p.frame)
    ensures Output(passes + [p]) == Output(passes) + Triples(p.responses)
    ensures Frames(passes + [p]) == Frames(passes) + [p.frame]
    decreases |passes|
  {
    hide PassOk, AfterPass, Triples;
    assert Frames(passes + [p]) == Frames(passes) + [p.frame];
    RunEndAppend(service, s, Frames(passes), p.frame);
    if passes == [] {
      assert passes + [p] == [p] && [p][1..] == [];
      assert Triples(p.responses) + [] == [] + Triples(p.responses);
    } else {
      assert Frames(passes)[1..] == Frames(passes[1..]);
      RunAppend(service, AfterPass(service, s, passes[0].frame), passes[1..], p);
      assert (passes + [p])[1..] == passes[1..] + [p];
      Assoc(Triples(passes[0].responses), Output(passes[1..]), Triples(p.responses));
    }
  }

  // Headers open the stream if need be; a panic leaves a new stream out of the session.
  function HeadersResult(s: Session, id: StreamId, headers: seq<Header>): (Session, Status) {
    var (next, outcome) := HeadersSpec(if id in s then s[id] else FRESH, headers);
    (if outcome.Panic? && id !in s then s else s[id := next], StatusOf(outcome))
  }

  ghost function DataResult(service: Service, s: Session, id: StreamId, data: Bytes): (Session, Status) {
    if id !in s then (s, Failed(UnknownStreamId))
    else
      var (next, outcome) := DataSpec(service, s[id], data);
      (s[id := next], StatusOf(outcome))
  }

  lemma PutTwice(s: Session, id: StreamId, v: StreamView, w: StreamView)
    ensures s[id := v][id := w] == s[id := w]
  {
  }

  // A frame is handled in two parts: its content, then the end of the stream if it is flagged so.
  lemma HandleFrameParts(service: Service, s: Session, f: HttpFrame)
    ensures var (s', status) :=
        match f
        case HeadersFrame(id, headers, _) => HeadersResult(s, id, headers)
        case DataFrame(id, data, _) => DataResult(service, s, id, data)
        case ResetFrame(id) => (if id in s then s[id := s[id].(state := Closed)] else s, Running)
        case OtherFrame => (s, Running);
      && (status.Running? && EndsStream(f) ==> f.id in s')
      && HandleFrame(service, s, f) ==
           (if status.Running? && EndsStream(f) then s'[f.id := EndIf(s'[f.id], true)] else s', status)
  {
    if !f.OtherFrame? {
      assert f.id !in s ==> s - {f.id} == s;
    }
    match f {
      case HeadersFrame(id, headers, end) =>
        var next := HeadersSpec(if id in s then s[id] else FRESH, headers).0;
        PutTwice(s, id, next, EndIf(next, true));
      case DataFrame(id, data, end) =>
        if id in s {
          var next := DataSpec(service, s[id], data).0;
          PutTwice(s, id, next, EndIf(next, true));
        }
      case _ =>
    }
  }

  lemma {:induction false} TriplesAppend(a: seq<Response>, b: seq<Response>)
    ensures Triples(a + b) == Triples(a) + Triples(b)
  {
    if a == [] {
      assert a + b == b;
    } else {
      TriplesAppend(a[1..], b);
      assert (a + b)[1..] == a[1..] + b;
      Assoc(Triple(a[0]), Triples(a[1..]), Triples(b));
    }
  }

  lemma SnocTriples(rs: seq<Response>, r: Response)
    ensures Triples(rs + [r]) == Triples(rs) + Triple(r)
  {
    TriplesAppend(rs, [r]);
    assert [r][1..] == [];
    assert Triples([r]) == Triple(r) + [];
  }

  lemma SplitTriples(rs: seq<Response>, i: nat)
    requires i < |rs|
    ensures Triples(rs[..i + 1]) == Triples(rs[..i]) + Triple(rs[i])
    ensures |Triples(rs[..i + 1])| <= |Triples(rs)|
  {
    assert rs[..i + 1] == rs[..i] + [rs[i]];
    SnocTriples(rs[..i], rs[i]);
    RestTriples(rs, i + 1);
  }

  lemma RestTriples(rs: seq<Response>, i: nat)
    requires i <= |rs|
    ensures Triples(rs) == Triples(rs[..i]) + Triples(rs[i..])
  {
    assert rs == rs[..i] + rs[i..];
    TriplesAppend(rs[..i], rs[i..]);
  }

  lemma TruncateTriples(sent: seq<HttpFrame>, rs: seq<Response>, i: nat, budget: nat)
    requires i < |rs| && |Triples(rs[..i])| <= budget < |Triples(rs[..i])| + 3
    ensures budget < |Triples(rs)|
    ensures (sent + Triples(rs[..i])) + Triple(rs[i])[..budget - |Triples(rs[..i])|] == sent + Triples(rs)[..budget]
  {
    SplitTriples(rs, i);
    RestTriples(rs, i + 1);
    var cut := Triple(rs[i])[..budget - |Triples(rs[..i])|];
    Assoc(sent, Triples(rs[..i]), cut);
    assert Triples(rs)[..budget] == Triples(rs[..i]) + cut;
  }
}

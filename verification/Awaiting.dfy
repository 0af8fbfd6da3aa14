// What get_response makes of the frames that come in: src/client.rs.
module Awaiting {
  import opened Common
  import opened Streams
  import opened Sessions
  import opened Isolation
  import opened Client

  // The frames may be handled without error: those of known streams, or of none.
  ghost predicate Expected(streams: ClientSession, frames: seq<HttpFrame>) {
    forall f <- frames :: f.OtherFrame? || f.ResetFrame? || f.id in streams
  }

  lemma ExpectedStep(streams: ClientSession, frames: seq<HttpFrame>)
    requires frames != [] && Expected(streams, frames)
    ensures var (next, status) := ClientHandle(streams, frames[0]);
      && status.Running? && next.Keys == streams.Keys && Expected(next, frames[1..])
      && forall id <- streams.Keys :: !Addresses(frames[0], id) ==> next[id] == streams[id]
  {
    assert frames[0] in frames;
  }

  // With headers in and the request sent, data up to the closing trailers is what get_response returns.
  lemma {:induction false} AwaitBody(streams: ClientSession, id: StreamId, first: seq<HttpFrame>, rest: seq<HttpFrame>,
                                     delivered: seq<HttpFrame>, trailers: HttpFrame)
    requires id in streams && streams[id].state == HalfClosedLocal && streams[id].headers.Some?
    requires Expected(streams, first)
    requires Own(first, id) == delivered + [trailers]
    requires forall f <- delivered :: f.DataFrame? && !f.end
    requires trailers.HeadersFrame? && trailers.end
    ensures AwaitClosed(streams, id, first + rest)
         == Response(trailers.headers, streams[id].body + Concat(Datas(delivered)))
    decreases |first|
  {
    assert first != [];
    var f := first[0];
    assert first == [f] + first[1..];
    OwnHead(first[1..], f, id);
    ExpectedStep(streams, first);
    var next := ClientHandle(streams, f).0;
    assert (first + rest)[0] == f && (first + rest)[1..] == first[1..] + rest;
    if !Addresses(f, id) {
      AwaitBody(next, id, first[1..], rest, delivered, trailers);
    } else if delivered == [] {
      assert Own(first, id)[0] == f == trailers;
      assert next[id].state.Closed?;
      assert AwaitClosed(next, id, first[1..] + rest) == Response(trailers.headers, streams[id].body);
      assert streams[id].body + [] == streams[id].body;
    } else {
      assert Own(first, id)[0] == f == delivered[0] && delivered[0] in delivered;
      assert delivered == [f] + delivered[1..];
      DatasHead(f, delivered[1..]);
      Assoc(streams[id].body, f.data, Concat(Datas(delivered[1..])));
      assert Own(first, id)[1..] == delivered[1..] + [trailers];
      assert Own(first[1..], id) == Own(first, id)[1..];
      AwaitBody(next, id, first[1..], rest, delivered[1..], trailers);
    }
  }

  lemma {:induction false} AwaitResponse(streams: ClientSession, id: StreamId,
                                         first: seq<HttpFrame>, rest: seq<HttpFrame>,
                                         headers: HttpFrame, delivered: seq<HttpFrame>, trailers: HttpFrame)
    requires id in streams && streams[id].state == HalfClosedLocal && streams[id].body == []
    requires Expected(streams, first)
    requires Own(first, id) == [headers] + delivered + [trailers]
    requires headers.HeadersFrame? && !headers.end
    requires forall f <- delivered :: f.DataFrame? && !f.end
    requires trailers.HeadersFrame? && trailers.end
    ensures AwaitClosed(streams, id, first + rest) == Response(trailers.headers, Concat(Datas(delivered)))
    decreases |first|
  {
    assert first != [];
    var f := first[0];
    assert first == [f] + first[1..];
    OwnHead(first[1..], f, id);
    ExpectedStep(streams, first);
    var next := ClientHandle(streams, f).0;
    assert (first + rest)[0] == f && (first + rest)[1..] == first[1..] + rest;
    if !Addresses(f, id) {
      AwaitResponse(next, id, first[1..], rest, headers, delivered, trailers);
    } else {
      assert Own(first, id)[0] == headers == f;
      assert Own(first, id)[1..] == delivered + [trailers];
      assert Own(first[1..], id) == delivered + [trailers];
      AwaitBody(next, id, first[1..], rest, delivered, trailers);
      assert [] + Concat(Datas(delivered)) == Concat(Datas(delivered));
    }
  }

  // ----- Whatever comes in ------------------------------------------------------------------

  predicate Unexpected(streams: ClientSession, f: HttpFrame) {
    (f.HeadersFrame? || f.DataFrame?) && f.id !in streams
  }

  // What one frame may do to the client: headers or data for an unknown stream are the only errors and change nothing;
  // no stream comes or goes, and none but the frame's own moves.
  lemma ClientFrameOutcome(streams: ClientSession, f: HttpFrame)
    ensures var (next, status) := ClientHandle(streams, f);
      && status == (if Unexpected(streams, f) then Failed(UnknownStreamId) else Running)
      && next.Keys == streams.Keys
      && (Unexpected(streams, f) ==> next == streams)
      && (forall id <- streams.Keys :: !Addresses(f, id) ==> next[id] == streams[id])
  {
  }

  // A stream closed on both sides is not waited for, one in any other state is.
  lemma WaitsUnlessClosed(streams: ClientSession, id: StreamId, incoming: seq<HttpFrame>)
    requires id in streams
    ensures streams[id].state == Closed ==>
      AwaitClosed(streams, id, incoming) == ClosedWith(streams[id].headers, streams[id].body, [])
    ensures streams[id].state != Closed && incoming == [] ==>
      AwaitClosed(streams, id, incoming) == AwaitFailed(EndOfInput)
  {
    assert streams[id].body + Concat(Datas([])) == streams[id].body;
  }

  // The headers in force after some frames: the last ones received, or those there were.
  function HeadersAfter(headers: Option<seq<Header>>, fs: seq<HttpFrame>): Option<seq<Header>>
    decreases |fs|
  {
    if fs == [] then headers
    else HeadersAfter(if fs[0].HeadersFrame? then Some(fs[0].headers) else headers, fs[1..])
  }

  // The stream closed by the last of its frames.
  function ClosedWith(headers: Option<seq<Header>>, body: Bytes, own: seq<HttpFrame>): Awaited {
    match HeadersAfter(headers, own)
    case Some(last) => Response(last, body + Concat(Datas(own)))
    case None => NoHeaders
  }

  lemma ClosedWithHead(headers: Option<seq<Header>>, body: Bytes, f: HttpFrame, fs: seq<HttpFrame>)
    ensures ClosedWith(headers, body, [f] + fs) ==
      ClosedWith(if f.HeadersFrame? then Some(f.headers) else headers, body + if f.DataFrame? then f.data else [], fs)
  {
    assert ([f] + fs)[1..] == fs && Datas([f] + fs)[1..] == Datas(fs);
    Assoc(body, if f.DataFrame? then f.data else [], Concat(Datas(fs)));
  }

  // The wait ends with the first frame of the stream that ends or resets it, and gives the last headers and all the
  // data received by then; it fails when a frame for an unknown stream comes first, or when nothing of the kind comes.
  lemma {:induction false} AwaitOutcome(streams: ClientSession, id: StreamId,
                                        before: seq<HttpFrame>, later: seq<HttpFrame>)
    requires id in streams && streams[id].state == HalfClosedLocal
    requires Expected(streams, before) && forall f <- Own(before, id) :: !EndsStream(f) && !f.ResetFrame?
    requires later != [] ==>
      Unexpected(streams, later[0]) || (Addresses(later[0], id) && (EndsStream(later[0]) || later[0].ResetFrame?))
    ensures AwaitClosed(streams, id, before + later) ==
      if later == [] then AwaitFailed(EndOfInput)
      else if Unexpected(streams, later[0]) then AwaitFailed(UnknownStreamId)
      else ClosedWith(streams[id].headers, streams[id].body, Own(before, id) + [later[0]])
    decreases |before|
  {
    if before == [] {
      assert before + later == later;
      if later != [] && !Unexpected(streams, later[0]) {
        ClosingFrame(streams, id, later);
        assert [] + [later[0]] == [later[0]];
      }
    } else {
      var f := before[0];
      var next := ClientHandle(streams, f).0;
      assert before == [f] + before[1..];
      assert (before + later)[0] == f && (before + later)[1..] == before[1..] + later;
      OwnHead(before[1..], f, id);
      ExpectedStep(streams, before);
      if Addresses(f, id) {
        assert f in Own(before, id);
        var own := Own(before[1..], id);
        assert forall g <- own :: g in Own(before, id);
        if later != [] {
          ClosedWithHead(streams[id].headers, streams[id].body, f, own + [later[0]]);
          Assoc([f], own, [later[0]]);
        }
        assert next[id].body == streams[id].body + if f.DataFrame? then f.data else [];
      }
      AwaitOutcome(next, id, before[1..], later);
    }
  }

  lemma ClosingFrame(streams: ClientSession, id: StreamId, incoming: seq<HttpFrame>)
    requires id in streams && streams[id].state == HalfClosedLocal
    requires incoming != [] && Addresses(incoming[0], id) && (EndsStream(incoming[0]) || incoming[0].ResetFrame?)
    ensures AwaitClosed(streams, id, incoming) == ClosedWith(streams[id].headers, streams[id].body, [incoming[0]])
  {
    var f := incoming[0];
    var next := ClientHandle(streams, f).0;
    ClosedWithHead(streams[id].headers, streams[id].body, f, []);
    assert [f] + [] == [f];
    assert next[id].body == streams[id].body + if f.DataFrame? then f.data else [];
    assert next[id].body + Concat(Datas([])) == next[id].body;
    assert AwaitClosed(streams, id, incoming) == AwaitClosed(next, id, incoming[1..]);
  }
}

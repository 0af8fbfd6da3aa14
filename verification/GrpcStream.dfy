// The mutable server stream of src/server.rs, each method proved against its meaning in Streams.
module GrpcStreams {
  import opened Common
  import opened Utf8
  import opened Codec
  import opened Framing
  import opened Method
  import opened Batch
  import opened Streams

  class GrpcStream {
    const streamId: StreamId
    const service: Service
    const host: Host
    var headers: Option<seq<Header>>
    var state: StreamState
    var data: Option<Cursor>
    var reqBuf: Bytes
    var respBuf: Bytes
    var path: Bytes
    // Completed dispatches and all the DATA bytes that ever arrived.
    ghost var log: seq<Dispatch>
    ghost var received: Bytes

    constructor WithId(streamId: StreamId, service: Service, host: Host)
      ensures View() == FRESH
      ensures state == Open && headers == None && data == None && reqBuf == respBuf == path == []
      ensures this.streamId == streamId && this.service == service && this.host == host
    {
      this.streamId := streamId;
      this.service := service;
      this.host := host;
      headers := None;
      state := Open;
      data := None;
      reqBuf, respBuf, path := [], [], [];
      log, received := [], [];
    }

    ghost function View(): StreamView
      reads this
    {
      StreamView(state, headers, data, path, reqBuf, respBuf, log, received)
    }

    // Parses, dispatches, drains and answers, one frame per iteration, until no whole frame is left.
    method ProcessBuf() returns (outcome: Outcome<()>)
      modifies `reqBuf, `respBuf, `log
      ensures var b := RunBatch(service, path, old(reqBuf));
        && reqBuf == b.rest
        && respBuf == old(respBuf) + EncodeAll(Replies(b.log))
        && log == old(log) + b.log
        && outcome == b.outcome
    {
      ghost var done: seq<Dispatch> := [];
      assert respBuf + EncodeAll(Replies(done)) == respBuf;
      while true
        invariant RunBatch(service, path, old(reqBuf)) == Then(done, RunBatch(service, path, reqBuf))
        invariant respBuf == old(respBuf) + EncodeAll(Replies(done))
        invariant log == old(log) + done
        decreases |reqBuf|
      {
        assert done + [] == done;
        match ParseFrame(host, reqBuf) {
          case Incomplete =>
            BatchStops(service, path, reqBuf);
            return Done(());
          case Refused(reason) =>
            BatchStops(service, path, reqBuf);
            return Panic(reason);
          case Frame(frame, pos) =>
            BatchStep(service, path, reqBuf);
            var r := HandleMethod(service, path, frame);
            if r.Panic? {
              return Panic(r.reason);
            }
            reqBuf := reqBuf[pos..];
            respBuf := WriteFrame(host, respBuf, r.value);
            ghost var dispatch := Dispatch(path, frame, r.value);
            AnswerStep(old(respBuf), done, dispatch);
            ThenStep(done, dispatch, RunBatch(service, path, reqBuf));
            Assoc(old(log), done, [dispatch]);
            log := log + [dispatch];
            done := done + [dispatch];
        }
      }
    }

    method SetHeaders(headers: seq<Header>) returns (outcome: Outcome<()>)
      modifies this
      ensures (View(), outcome) == HeadersSpec(old(View()), headers)
    {
      for i := 0 to |headers|
        invariant ReadPath(old(path), headers) == ReadPath(path, headers[i..])
        invariant View() == old(View()).(path := path)
      {
        assert headers[i..][1..] == headers[i + 1..];
        if headers[i].name == PATH_NAME {
          if !ValidUtf8(headers[i].value) {
            return Panic(InvalidUtf8);
          }
          path := headers[i].value;
        }
      }
      this.headers := Some(headers);
      return Done(());
    }

    method NewDataChunk(data: Bytes) returns (outcome: Outcome<()>)
      modifies `reqBuf, `respBuf, `log, `received
      ensures (View(), outcome) == DataSpec(service, old(View()), data)
    {
      received := received + data;
      reqBuf := reqBuf + data;
      outcome := ProcessBuf();
    }

    method SetState(state: StreamState)
      modifies `state
      ensures View() == old(View()).(state := state)
    {
      this.state := state;
    }

    // Copies the next unread bytes to the front of buf.
    method GetDataChunk(buf: array<Byte>) returns (result: ChunkResult)
      modifies `state, `data, buf
      ensures var (next, expected, bytes) := ReadNext(SenderOf(old(View())), buf.Length);
        && View() == WithSender(old(View()), next)
        && result == expected
        && |bytes| <= buf.Length
        && buf[..|bytes|] == bytes
        && buf[|bytes|..] == old(buf[|bytes|..])
    {
      if state.ClosedLocal() {
        return ClosedError;
      }
      match data {
        case None =>
          return Unavailable;
        case Some(cursor) =>
          var read := Min(buf.Length, |cursor.bytes| - cursor.position);
          forall i | 0 <= i < read {
            buf[i] := cursor.bytes[cursor.position + i];
          }
          data := Some(Cursor(cursor.bytes, cursor.position + read));
          if cursor.position + read == |cursor.bytes| {
            SetState(state.CloseLocal());
            return Last(read);
          }
          return Chunk(read);
      }
    }
  }
}

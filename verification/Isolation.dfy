// Streams of one connection do not interfere, and every stream keeps the byte-conservation invariant.
module Isolation {
  import opened Common
  import opened Framing
  import opened Method
  import opened Batch
  import opened Streams
  import opened Sessions

  // The part of a session that concerns one stream.
  function Only(s: Session, id: StreamId): Session {
    if id in s then map[id := s[id]] else map[]
  }

  // The frames that concern one stream, in order.
  function Own(frames: seq<HttpFrame>, id: StreamId): seq<HttpFrame> {
    if frames == [] then []
    else if Addresses(frames[0], id) then [frames[0]] + Own(frames[1..], id)
    else Own(frames[1..], id)
  }

  lemma OwnHead(frames: seq<HttpFrame>, f: HttpFrame, id: StreamId)
    ensures Own([f] + frames, id) == if Addresses(f, id) then [f] + Own(frames, id) else Own(frames, id)
  {
    assert ([f] + frames)[1..] == frames;
  }

  lemma StepOwn(service: Service, s: Session, f: HttpFrame, id: StreamId)
    requires Addresses(f, id)
    ensures HandleFrame(service, Only(s, id), f).1 == HandleFrame(service, s, f).1
    ensures AfterPass(service, Only(s, id), f) == Only(AfterPass(service, s, f), id)
  {
    assert At(Only(s, id), id) == At(s, id);
    var v := OnFrame(service, At(s, id), f).0;
    assert Only(Put(s, id, v), id) == Put(Only(s, id), id, v);
    ReapOnly(Put(s, id, v), id);
  }

  lemma StepOther(service: Service, s: Session, f: HttpFrame, id: StreamId)
    requires !Addresses(f, id) && Reap(s) == s
    ensures Only(AfterPass(service, s, f), id) == Only(s, id)
  {
    var s' := HandleFrame(service, s, f).0;
    assert At(s', id) == At(s, id);
    assert id in s ==> id in Reap(s);
    assert id in s ==> Reap(s)[id] == s[id];
  }

  lemma ReapOnly(s: Session, id: StreamId)
    ensures Reap(Only(s, id)) == Only(Reap(s), id)
  {
  }

  lemma ReapIdempotent(s: Session)
    ensures Reap(Reap(s)) == Reap(s)
  {
  }

  // Multi-stream isolation: whatever is interleaved with its frames, a stream ends up
  // as if the connection had carried nothing else.
  lemma {:induction false} StreamsAreIsolated(service: Service, s: Session, frames: seq<HttpFrame>, id: StreamId)
    requires Reap(s) == s && RunsClean(service, s, frames)
    ensures RunsClean(service, Only(s, id), Own(frames, id))
    ensures Only(RunEnd(service, s, frames), id) == RunEnd(service, Only(s, id), Own(frames, id))
    decreases |frames|
  {
    if frames != [] {
      var f := frames[0];
      ReapIdempotent(HandleFrame(service, s, f).0);
      StreamsAreIsolated(service, AfterPass(service, s, f), frames[1..], id);
      if Addresses(f, id) {
        StepOwn(service, s, f, id);
        assert Own(frames, id)[1..] == Own(frames[1..], id);
      } else {
        StepOther(service, s, f, id);
      }
    }
  }

  // A connection fails or panics exactly when one of its streams would do so alone.
  lemma {:induction false} CleanIffEachStreamClean(service: Service, s: Session, frames: seq<HttpFrame>)
    requires Reap(s) == s
    ensures RunsClean(service, s, frames) <==> forall id :: RunsClean(service, Only(s, id), Own(frames, id))
    decreases |frames|
  {
    if RunsClean(service, s, frames) {
      forall id ensures RunsClean(service, Only(s, id), Own(frames, id)) {
        StreamsAreIsolated(service, s, frames, id);
      }
    } else if frames != [] {
      var f := frames[0];
      if HandleFrame(service, s, f).1.Running? {
        ReapIdempotent(HandleFrame(service, s, f).0);
        CleanIffEachStreamClean(service, AfterPass(service, s, f), frames[1..]);
        var id :| !RunsClean(service, Only(AfterPass(service, s, f), id), Own(frames[1..], id));
        if Addresses(f, id) {
          StepOwn(service, s, f, id);
          assert Own(frames, id)[1..] == Own(frames[1..], id);
        } else {
          StepOther(service, s, f, id);
        }
        assert !RunsClean(service, Only(s, id), Own(frames, id));
      } else {
        StepOwn(service, s, f, f.id);
        assert !RunsClean(service, Only(s, f.id), Own(frames, f.id));
      }
    }
  }

  // ----- How streams come and go ------------------------------------------------------------

  // The server never ends its own side of a stream: nothing sets a stream's outgoing data.
  ghost predicate SendingOpen(s: Session) {
    forall id <- s.Keys :: !s[id].state.ClosedLocal()
  }

  lemma SendingStaysOpen(service: Service, s: Session, f: HttpFrame)
    requires SendingOpen(s) && HandleFrame(service, s, f).1.Running?
    ensures SendingOpen(AfterPass(service, s, f))
  {
    var s' := HandleFrame(service, s, f).0;
    forall id <- Reap(s').Keys ensures !Reap(s')[id].state.ClosedLocal() {
      assert !s'[id].state.Closed?;
    }
  }

  // A stream is in the session exactly when the last frame addressed to it was not a reset: replies with END_STREAM
  // and the peer's own END_STREAM never remove it.
  lemma {:induction false} StreamsLeaveOnlyByReset(service: Service, s: Session, frames: seq<HttpFrame>, id: StreamId)
    requires SendingOpen(s) && RunsClean(service, s, frames)
    ensures SendingOpen(RunEnd(service, s, frames))
    ensures var own := Own(frames, id);
      id in RunEnd(service, s, frames) <==> if own == [] then id in s else !own[|own| - 1].ResetFrame?
    decreases |frames|
  {
    if frames != [] {
      var f := frames[0];
      var s' := AfterPass(service, s, f);
      SendingStaysOpen(service, s, f);
      StreamsLeaveOnlyByReset(service, s', frames[1..], id);
      StaysIn(service, s, f, id);
    }
  }

  lemma StaysIn(service: Service, s: Session, f: HttpFrame, id: StreamId)
    requires SendingOpen(s) && HandleFrame(service, s, f).1.Running?
    ensures id in AfterPass(service, s, f) <==> if Addresses(f, id) then !f.ResetFrame? else id in s
  {
  }

  // What one frame may do: DATA for an unknown stream is the only error; a :path that is not UTF-8 and a request that
  // the service panics on are the only panics; only headers that are accepted open a stream; and no other stream moves.
  lemma FrameOutcome(service: Service, s: Session, f: HttpFrame)
    ensures var (s', status) := HandleFrame(service, s, f);
      && (status.Failed? <==> f.DataFrame? && f.id !in s)
      && (status.Failed? ==> status == Failed(UnknownStreamId))
      && (status.Panicked? && f.HeadersFrame? <==> f.HeadersFrame? && FirstBadPath(f.headers) < |f.headers|)
      && (status.Panicked? && !f.HeadersFrame? <==>
            f.DataFrame? && f.id in s && RunBatch(service, s[f.id].path, s[f.id].reqBuf + f.data).outcome.Panic?)
      && (status.Panicked? ==>
            if f.HeadersFrame? then status.reason == InvalidUtf8
            else RunBatch(service, s[f.id].path, s[f.id].reqBuf + f.data).outcome == Panic(status.reason))
      && s'.Keys == (if f.HeadersFrame? && status.Running? then s.Keys + {f.id} else s.Keys)
      && (forall id <- s.Keys :: !Addresses(f, id) ==> s'[id] == s[id])
  {
    hide ReadPath, FirstBadPath, RunBatch;
    if f.HeadersFrame? {
      LastPathWins(if f.id in s then s[f.id].path else [], f.headers);
    }
  }

  // Reaping takes the streams whose two sides have both ended, and nothing else.
  lemma ReapedAreClosed(s: Session, id: StreamId)
    ensures id in Reap(s) <==> id in s && !(s[id].state.ClosedLocal() && s[id].state.ClosedRemote())
    ensures id in Reap(s) ==> Reap(s)[id] == s[id]
  {
  }

  // ----- The invariant of every stream ------------------------------------------------------

  // Between passes: bytes are conserved, no whole frame waits, nothing is queued for flushing.
  ghost predicate StreamInvariant(service: Service, v: StreamView) {
    Conserves(service, v) && Settled(v) && v.data.None?
  }

  ghost predicate SessionInvariant(service: Service, s: Session) {
    forall id <- s.Keys :: StreamInvariant(service, s[id])
  }

  lemma FreshInvariant(service: Service)
    ensures StreamInvariant(service, FRESH)
  {
    assert Messages([]) == [] && Replies([]) == [];
    assert EncodeAll([]) + [] == [];
  }

  lemma OnFrameKeepsInvariant(service: Service, v: Option<StreamView>, f: HttpFrame)
    requires !f.OtherFrame? && (v.Some? ==> StreamInvariant(service, v.value))
    requires OnFrame(service, v, f).1.Running? && OnFrame(service, v, f).0.Some?
    ensures StreamInvariant(service, OnFrame(service, v, f).0.value)
  {
    hide Conserves, DataSpec;
    FreshInvariant(service);
    match f
    case HeadersFrame(_, headers, end) =>
      var w := if v.Some? then v.value else FRESH;
      HeadersKeepConservation(service, w, headers, end);
    case DataFrame(_, data, end) =>
      DataConserves(service, v.value, data);
      DataKeepsSender(service, v.value, data);
      StateKeepsConservation(service, DataSpec(service, v.value, data).0, end);
    case ResetFrame(_) =>
      ClosingKeepsConservation(service, v.value);
  }

  lemma HeadersKeepConservation(service: Service, v: StreamView, headers: seq<Header>, end: bool)
    requires Conserves(service, v)
    ensures Conserves(service, EndIf(HeadersSpec(v, headers).0, end))
  {
  }

  lemma DataKeepsSender(service: Service, v: StreamView, data: Bytes)
    ensures DataSpec(service, v, data).0.data == v.data
  {
  }

  lemma StateKeepsConservation(service: Service, v: StreamView, end: bool)
    requires Conserves(service, v)
    ensures Conserves(service, EndIf(v, end))
  {
  }

  lemma ClosingKeepsConservation(service: Service, v: StreamView)
    requires Conserves(service, v)
    ensures Conserves(service, v.(state := Closed))
  {
  }

  lemma FrameKeepsInvariant(service: Service, s: Session, f: HttpFrame)
    requires SessionInvariant(service, s) && HandleFrame(service, s, f).1.Running?
    ensures SessionInvariant(service, HandleFrame(service, s, f).0)
  {
    hide OnFrame, StreamInvariant;
    if !f.OtherFrame? && OnFrame(service, At(s, f.id), f).0.Some? {
      OnFrameKeepsInvariant(service, At(s, f.id), f);
    }
  }

  // Byte conservation holds for every stream in every state a run can reach.
  lemma {:induction false} RunKeepsInvariant(service: Service, s: Session, frames: seq<HttpFrame>)
    requires SessionInvariant(service, s) && RunsClean(service, s, frames)
    ensures SessionInvariant(service, RunEnd(service, s, frames))
    decreases |frames|
  {
    if frames != [] {
      FrameKeepsInvariant(service, s, frames[0]);
      RunKeepsInvariant(service, AfterPass(service, s, frames[0]), frames[1..]);
    }
  }
}

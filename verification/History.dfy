// What a live stream is after a whole run, read off the frames it was sent.
module History {
  import opened Common
  import opened Method
  import opened Streams
  import opened Drain
  import opened Sessions
  import opened Isolation
  import opened Responses

  // The frames after the last reset: those since the stream was last opened.
  function SinceReset(own: seq<HttpFrame>): seq<HttpFrame> {
    if own == [] || own[|own| - 1].ResetFrame? then []
    else SinceReset(own[..|own| - 1]) + [own[|own| - 1]]
  }

  // All the header lists received, one after the other.
  function AllHeaders(fs: seq<HttpFrame>): seq<Header> {
    if fs == [] then []
    else AllHeaders(fs[..|fs| - 1]) + if fs[|fs| - 1].HeadersFrame? then fs[|fs| - 1].headers else []
  }

  function LastHeaders(fs: seq<HttpFrame>): Option<seq<Header>> {
    if fs == [] then None
    else if fs[|fs| - 1].HeadersFrame? then Some(fs[|fs| - 1].headers)
    else LastHeaders(fs[..|fs| - 1])
  }

  function AllData(fs: seq<HttpFrame>): Bytes {
    if fs == [] then []
    else AllData(fs[..|fs| - 1]) + if fs[|fs| - 1].DataFrame? then fs[|fs| - 1].data else []
  }

  lemma {:induction false} ReadPathAppend(path: Bytes, a: seq<Header>, b: seq<Header>)
    requires ReadPath(path, a).1.Done?
    ensures ReadPath(path, a + b) == ReadPath(ReadPath(path, a).0, b)
    decreases |a|
  {
    if a == [] {
      assert a + b == b;
    } else {
      assert (a + b)[1..] == a[1..] + b;
      ReadPathAppend(if a[0].name == PATH_NAME then a[0].value else path, a[1..], b);
    }
  }

  // The stream is what its frames since it was opened say: it was opened by HEADERS, the peer's side has ended exactly
  // when one of them carried END_STREAM, its headers are the last ones, its path the last :path of them all.
  ghost predicate Remembers(v: StreamView, since: seq<HttpFrame>) {
    && since != [] && since[0].HeadersFrame?
    && v.state == (if exists f <- since :: EndsStream(f) then HalfClosedRemote else Open)
    && v.headers == LastHeaders(since)
    && ReadPath([], AllHeaders(since)).0 == v.path && ReadPath([], AllHeaders(since)).1.Done?
    && v.received == AllData(since)
    && v.data.None?
  }

  lemma SinceSnoc(since: seq<HttpFrame>, f: HttpFrame)
    ensures AllHeaders(since + [f]) == AllHeaders(since) + if f.HeadersFrame? then f.headers else []
    ensures LastHeaders(since + [f]) == if f.HeadersFrame? then Some(f.headers) else LastHeaders(since)
    ensures AllData(since + [f]) == AllData(since) + if f.DataFrame? then f.data else []
    ensures (exists g <- since + [f] :: EndsStream(g)) <==> (exists g <- since :: EndsStream(g)) || EndsStream(f)
  {
    assert (since + [f])[..|since + [f]| - 1] == since;
    assert f in since + [f];
    assert forall g <- since :: g in since + [f];
  }

  // One more frame for a stream that is there.
  lemma RemembersOneMore(service: Service, s: Session, f: HttpFrame, id: StreamId, since: seq<HttpFrame>)
    requires Addresses(f, id) && !f.ResetFrame? && HandleFrame(service, s, f).1.Running?
    requires id in s && Remembers(s[id], since)
    ensures id in AfterPass(service, s, f) && Remembers(AfterPass(service, s, f)[id], since + [f])
  {
    SinceSnoc(since, f);
    if f.HeadersFrame? {
      ReadPathAppend([], AllHeaders(since), f.headers);
    } else {
      assert AllHeaders(since) + [] == AllHeaders(since);
    }
    assert AllData(since) + [] == AllData(since);
  }

  // The headers that open a stream.
  lemma RemembersOpening(service: Service, s: Session, f: HttpFrame, id: StreamId)
    requires Addresses(f, id) && id !in s && HandleFrame(service, s, f).1.Running? && !f.ResetFrame?
    ensures id in AfterPass(service, s, f) && Remembers(AfterPass(service, s, f)[id], [f])
  {
    SinceSnoc([], f);
    assert [] + [f] == [f];
    assert AllHeaders([]) + f.headers == f.headers;
    assert AllData([]) + [] == [];
  }

  lemma {:induction false} CleanInit(service: Service, s: Session, init: seq<HttpFrame>, f: HttpFrame)
    requires RunsClean(service, s, init + [f])
    ensures RunsClean(service, s, init) && HandleFrame(service, RunEnd(service, s, init), f).1.Running?
    decreases |init|
  {
    assert (init + [f])[1..] == if init == [] then [] else init[1..] + [f];
    if init != [] {
      CleanInit(service, AfterPass(service, s, init[0]), init[1..], f);
    }
  }

  // After every clean run from the empty session, every stream that is there remembers its own frames since it was
  // last opened, whatever else the connection carried.
  lemma {:induction false} LiveStreamRemembers(service: Service, frames: seq<HttpFrame>, id: StreamId)
    requires RunsClean(service, map[], frames) && id in RunEnd(service, map[], frames)
    ensures Remembers(RunEnd(service, map[], frames)[id], SinceReset(Own(frames, id)))
    decreases |frames|
  {
    hide Remembers, HandleFrame, AfterPass;
    assert frames != [];
    var init, f := frames[..|frames| - 1], frames[|frames| - 1];
    assert frames == init + [f];
    CleanInit(service, map[], init, f);
    RunEndAppend(service, map[], init, f);
    OwnAppend(init, [f], id);
    OwnSingle(f, id);
    var s, own := RunEnd(service, map[], init), Own(init, id);
    StreamsLeaveOnlyByReset(service, map[], init, id);
    StaysIn(service, s, f, id);
    if !Addresses(f, id) {
      assert Own(frames, id) == own;
      LiveStreamRemembers(service, init, id);
      UntouchedStays(service, s, f, id);
    } else {
      assert Own(frames, id)[..|own|] == own;
      if id in s {
        LiveStreamRemembers(service, init, id);
        RemembersOneMore(service, s, f, id, SinceReset(own));
      } else {
        RemembersOpening(service, s, f, id);
        assert SinceReset(own) + [f] == [f];
      }
    }
  }

  lemma UntouchedStays(service: Service, s: Session, f: HttpFrame, id: StreamId)
    requires !Addresses(f, id) && id in AfterPass(service, s, f)
    ensures id in s && AfterPass(service, s, f)[id] == s[id]
  {
  }

  // Nothing ever gives a server stream data to send: in every state a run reaches, every read of every stream answers
  // Unavailable and changes nothing.
  lemma ServerReadsNothing(service: Service, frames: seq<HttpFrame>, id: StreamId, capacity: nat)
    requires RunsClean(service, map[], frames) && id in RunEnd(service, map[], frames)
    ensures var half := SenderOf(RunEnd(service, map[], frames)[id]);
      ReadNext(half, capacity) == (half, Unavailable, [])
  {
    LiveStreamRemembers(service, frames, id);
    ReadResults(SenderOf(RunEnd(service, map[], frames)[id]), capacity);
  }
}

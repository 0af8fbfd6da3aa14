// Isolation and chunking independence together: a stream depends only on the bytes addressed to it.
module Interleaving {
  import opened Common
  import opened Method
  import opened Streams
  import opened Sessions
  import opened Isolation

  // Everything about a stream but whether its two sides have ended.
  function Content(v: StreamView): StreamView {
    v.(state := Open)
  }

  lemma ContentOfData(service: Service, v: StreamView, data: Bytes)
    ensures var (next, outcome) := DataSpec(service, v, data);
      DataSpec(service, Content(v), data) == (Content(next), outcome)
  {
  }

  lemma DataStep(service: Service, s: Session, f: HttpFrame, id: StreamId)
    requires f.DataFrame? && f.id == id && id in s && !s[id].state.ClosedLocal()
    ensures HandleFrame(service, s, f).1.Running? <==> DataSpec(service, s[id], f.data).1.Done?
    ensures HandleFrame(service, s, f).1.Running? ==>
      var s' := AfterPass(service, s, f);
      && id in s' && !s'[id].state.ClosedLocal()
      && Content(s'[id]) == Content(DataSpec(service, s[id], f.data).0)
  {
  }

  // DATA frames on one stream do to it what feeding it their payloads does, and panic exactly when that does.
  lemma {:induction false} DataRun(service: Service, s: Session, id: StreamId, frames: seq<HttpFrame>)
    requires id in s && !s[id].state.ClosedLocal()
    requires forall f <- frames :: f.DataFrame? && f.id == id
    ensures RunsClean(service, s, frames) <==> FeedAll(service, Content(s[id]), Datas(frames)).1.Done?
    ensures RunsClean(service, s, frames) ==> id in RunEnd(service, s, frames)
    ensures RunsClean(service, s, frames) ==>
      FeedAll(service, Content(s[id]), Datas(frames)) == (Content(RunEnd(service, s, frames)[id]), Done(()))
    decreases |frames|
  {
    hide HandleFrame, AfterPass;
    if frames != [] {
      var f := frames[0];
      assert f in frames;
      DataStep(service, s, f, id);
      ContentOfData(service, s[id], f.data);
      assert Datas(frames)[1..] == Datas(frames[1..]);
      if HandleFrame(service, s, f).1.Running? {
        DataRun(service, AfterPass(service, s, f), id, frames[1..]);
      }
    }
  }

  lemma OpeningStep(service: Service, opening: HttpFrame, id: StreamId)
    requires opening.HeadersFrame? && opening.id == id
    ensures HandleFrame(service, map[], opening).1.Running? <==> HeadersSpec(FRESH, opening.headers).1.Done?
    ensures HandleFrame(service, map[], opening).1.Running? ==>
      var s := AfterPass(service, map[], opening);
      && s.Keys == {id} && !s[id].state.ClosedLocal()
      && Content(s[id]) == Content(HeadersSpec(FRESH, opening.headers).0)
      && s[id].reqBuf == []
  {
  }

  // Whether a stream panics depends on its headers and its concatenated bytes, never on how they were cut.
  lemma PanicsDependOnBytes(service: Service, id: StreamId, opening: HttpFrame, arriving: seq<HttpFrame>)
    requires opening.HeadersFrame? && opening.id == id && forall f <- arriving :: f.DataFrame? && f.id == id
    ensures var (v, outcome) := HeadersSpec(FRESH, opening.headers);
      RunsClean(service, map[], [opening] + arriving)
      <==> outcome.Done? && DataSpec(service, Content(v), Concat(Datas(arriving))).1.Done?
  {
    var own := [opening] + arriving;
    assert own[1..] == arriving && own[0] == opening;
    OpeningStep(service, opening, id);
    if HandleFrame(service, map[], opening).1.Running? {
      var s := AfterPass(service, map[], opening);
      DataRun(service, s, id, arriving);
      assert Settled(Content(s[id]));
      ChunkingIndependence(service, Content(s[id]), Datas(arriving));
    }
  }

  // What a stream is once the opening headers and some DATA frames have come in, whatever else the connection
  // carried in between: the batch meaning of the concatenated bytes.
  lemma StreamIsItsBytes(service: Service, frames: seq<HttpFrame>, id: StreamId,
                         opening: HttpFrame, arriving: seq<HttpFrame>)
    requires RunsClean(service, map[], frames)
    requires Own(frames, id) == [opening] + arriving
    requires opening.HeadersFrame? && opening.id == id && forall f <- arriving :: f.DataFrame? && f.id == id
    ensures id in RunEnd(service, map[], frames)
    ensures (Content(RunEnd(service, map[], frames)[id]), Done(()))
         == DataSpec(service, Content(HeadersSpec(FRESH, opening.headers).0), Concat(Datas(arriving)))
  {
    var own := [opening] + arriving;
    StreamsAreIsolated(service, map[], frames, id);
    assert Only(map[], id) == map[];
    assert own[1..] == arriving && own[0] == opening;
    OpeningStep(service, opening, id);
    var s := AfterPass(service, map[], opening);
    DataRun(service, s, id, arriving);
    assert Settled(Content(s[id]));
    ChunkingIndependence(service, Content(s[id]), Datas(arriving));
    assert RunEnd(service, map[], own) == RunEnd(service, s, arriving);
    var lone := RunEnd(service, map[], own);
    assert id in lone && lone == Only(RunEnd(service, map[], frames), id);
  }

  // Two connections that carry the same headers and the same bytes for a stream, cut differently into DATA frames and
  // interleaved with different other traffic, agree on its dispatches, its buffers and its replies.
  lemma CutsAndTrafficDoNotMatter(service: Service, id: StreamId, opening: HttpFrame,
                                  frames: seq<HttpFrame>, arriving: seq<HttpFrame>,
                                  frames': seq<HttpFrame>, arriving': seq<HttpFrame>)
    requires RunsClean(service, map[], frames) && RunsClean(service, map[], frames')
    requires Own(frames, id) == [opening] + arriving && Own(frames', id) == [opening] + arriving'
    requires opening.HeadersFrame? && opening.id == id
    requires forall f <- arriving + arriving' :: f.DataFrame? && f.id == id
    requires Concat(Datas(arriving)) == Concat(Datas(arriving'))
    ensures id in RunEnd(service, map[], frames) && id in RunEnd(service, map[], frames')
    ensures Content(RunEnd(service, map[], frames)[id]) == Content(RunEnd(service, map[], frames')[id])
  {
    forall f | f in arriving || f in arriving' ensures f.DataFrame? && f.id == id {
      assert f in arriving + arriving';
    }
    StreamIsItsBytes(service, frames, id, opening, arriving);
    StreamIsItsBytes(service, frames', id, opening, arriving');
  }
}

// Flushing queued stream data: which frames go out, in what order per stream, and why it ends.
module Flush {
  import opened Common
  import opened Streams
  import opened Drain
  import opened Sessions
  import opened Isolation
  import opened Responses

  const MAX_CHUNK_SIZE := 8 * 1024

  datatype SendStatus = Sent | Nothing

  // The DATA frames that carry the given reads; a Last read ends the stream.
  function DataFrames(id: StreamId, rs: seq<Read>): (fs: seq<HttpFrame>)
    ensures |fs| == |rs|
  {
    seq(|rs|, i requires 0 <= i < |rs| => DataFrame(id, rs[i].1, rs[i].0.Last?))
  }

  // The sending halves of the streams of a session.
  type Senders = map<StreamId, Sender>

  // The frames out are reads of the streams of m, each stream's in order, and m' is what the reads leave.
  ghost predicate FlushedBy(m: Senders, m': Senders, out: seq<HttpFrame>) {
    && m'.Keys == m.Keys
    && (forall f <- out :: f.DataFrame? && f.id in m)
    && forall id <- m.Keys :: SenderFlushedBy(id, m[id], m'[id], Own(out, id))
  }

  ghost predicate SenderFlushedBy(id: StreamId, s: Sender, s': Sender, own: seq<HttpFrame>) {
    var (end, rs) := ReadMany(s, MAX_CHUNK_SIZE, |own|);
    && own == DataFrames(id, rs)
    && s' == end
    && (forall r <- rs :: r.0.Last? || r.0.Chunk?)
  }

  ghost predicate NothingReadable(m: Senders) {
    forall id <- m.Keys :: !Readable(m[id])
  }

  lemma FlushedByNothing(m: Senders)
    ensures FlushedBy(m, m, [])
  {
  }

  lemma {:induction false} ReadManyThenOne(s: Sender, capacity: nat, calls: nat)
    ensures var (mid, rs) := ReadMany(s, capacity, calls);
      var (end, result, bytes) := ReadNext(mid, capacity);
      ReadMany(s, capacity, calls + 1) == (end, rs + [(result, bytes)])
    decreases calls
  {
    if calls > 0 {
      var (next, result, bytes) := ReadNext(s, capacity);
      ReadManyThenOne(next, capacity, calls - 1);
      var (mid, rs) := ReadMany(next, capacity, calls - 1);
      Assoc([(result, bytes)], rs, [(ReadNext(mid, capacity).1, ReadNext(mid, capacity).2)]);
    } else {
      var (next, result, bytes) := ReadNext(s, capacity);
      assert [(result, bytes)] + ReadMany(next, capacity, 0).1 == ReadMany(s, capacity, 0).1 + [(result, bytes)];
    }
  }

  // One more chunk of one readable stream extends a flush.
  lemma SenderFlushStep(id: StreamId, s: Sender, mid: Sender, own: seq<HttpFrame>)
    requires SenderFlushedBy(id, s, mid, own) && Readable(mid)
    ensures var (end, result, bytes) := ReadNext(mid, MAX_CHUNK_SIZE);
      SenderFlushedBy(id, s, end, own + [DataFrame(id, bytes, result.Last?)])
  {
    ReadManyThenOne(s, MAX_CHUNK_SIZE, |own|);
    var rs := ReadMany(s, MAX_CHUNK_SIZE, |own|).1;
    var (end, result, bytes) := ReadNext(mid, MAX_CHUNK_SIZE);
    assert DataFrames(id, rs + [(result, bytes)]) == own + [DataFrame(id, bytes, result.Last?)];
  }

  // One chunk read from one stream, and the frame that carries it.
  function ReadStep(m: Senders, id: StreamId): (Senders, HttpFrame)
    requires id in m
  {
    var (end, result, bytes) := ReadNext(m[id], MAX_CHUNK_SIZE);
    (m[id := end], DataFrame(id, bytes, result.Last?))
  }

  // Chunks read from the picked streams in turn, each of them readable when its turn comes.
  ghost predicate Readings(m: Senders, picks: seq<StreamId>, m': Senders, out: seq<HttpFrame>)
    decreases |picks|
  {
    if picks == [] then m' == m && out == []
    else
      && picks[0] in m && Readable(m[picks[0]])
      && out != [] && out[0] == ReadStep(m, picks[0]).1
      && Readings(ReadStep(m, picks[0]).0, picks[1..], m', out[1..])
  }

  lemma NoReadings(m: Senders)
    ensures Readings(m, [], m, [])
  {
  }

  lemma NothingRead(m: Senders, picks: seq<StreamId>, m': Senders, out: seq<HttpFrame>)
    requires Readings(m, picks, m', out)
    ensures NothingReadable(m) ==> m' == m && out == []
  {
  }

  lemma {:induction false} ReadingsThenOne(m: Senders, picks: seq<StreamId>, m': Senders, out: seq<HttpFrame>,
                                           id: StreamId)
    requires Readings(m, picks, m', out)
    requires id in m' && Readable(m'[id])
    ensures Readings(m, picks + [id], ReadStep(m', id).0, out + [ReadStep(m', id).1])
    decreases |picks|
  {
    if picks == [] {
      assert ([] + [id])[1..] == [] && ([] + [ReadStep(m', id).1])[1..] == [];
    } else {
      ReadingsThenOne(ReadStep(m, picks[0]).0, picks[1..], m', out[1..], id);
      assert (picks + [id])[1..] == picks[1..] + [id];
      assert (out + [ReadStep(m', id).1])[1..] == out[1..] + [ReadStep(m', id).1];
    }
  }

  lemma FlushStep(m: Senders, mid: Senders, out: seq<HttpFrame>, id: StreamId)
    requires FlushedBy(m, mid, out) && id in mid && Readable(mid[id])
    ensures FlushedBy(m, ReadStep(mid, id).0, out + [ReadStep(mid, id).1])
  {
    var f := ReadStep(mid, id).1;
    SenderFlushStep(id, m[id], mid[id], Own(out, id));
    forall k <- m.Keys ensures Own(out + [f], k) == if k == id then Own(out, id) + [f] else Own(out, k) {
      OwnAppend(out, [f], k);
      OwnSingle(f, k);
    }
  }

  lemma {:induction false} ReadingsFlush(m: Senders, mid: Senders, done: seq<HttpFrame>,
                                         picks: seq<StreamId>, m': Senders, out: seq<HttpFrame>)
    requires FlushedBy(m, mid, done) && Readings(mid, picks, m', out)
    ensures FlushedBy(m, m', done + out)
    decreases |picks|
  {
    hide FlushedBy, ReadStep;
    if picks == [] {
      assert done + [] == done;
    } else {
      FlushStep(m, mid, done, picks[0]);
      ReadingsFlush(m, ReadStep(mid, picks[0]).0, done + [out[0]], picks[1..], m', out[1..]);
      Assoc(done, [out[0]], out[1..]);
      assert [out[0]] + out[1..] == out;
    }
  }

  // Delivery: when a flush has run out of readable streams, each stream's frames carry exactly its unread bytes,
  // in order, with END_STREAM on the last of them only, and the stream's sending side is closed.
  lemma FlushDelivers(m: Senders, m': Senders, out: seq<HttpFrame>, id: StreamId)
    requires FlushedBy(m, m', out) && NothingReadable(m') && id in m
    ensures var own := Own(out, id);
      if Readable(m[id]) then
        && Concat(Datas(own)) == Unread(m[id])
        && |own| == ReadsNeeded(|Unread(m[id])|, MAX_CHUNK_SIZE)
        && (forall i | 0 <= i < |own| :: own[i].DataFrame? && (own[i].end <==> i == |own| - 1))
        && (forall i | 0 <= i < |own| :: if own[i].end then |own[i].data| <= 8192 else |own[i].data| == 8192)
        && m'[id].state == m[id].state.CloseLocal()
      else
        own == [] && m'[id] == m[id]
  {
    var own := Own(out, id);
    var s := m[id];
    var (end, rs) := ReadMany(s, MAX_CHUNK_SIZE, |own|);
    assert SenderFlushedBy(id, s, m'[id], own);
    if Readable(s) {
      DrainDelivers(s, MAX_CHUNK_SIZE, |own|);
      var needed := ReadsNeeded(|Unread(s)|, MAX_CHUNK_SIZE);
      assert |own| >= needed;
      if |own| > needed {
        DrainResults(s, MAX_CHUNK_SIZE, |own|, needed);
        assert false;
      }
      forall i | 0 <= i < |own|
        ensures own[i].DataFrame? && (own[i].end <==> i == |own| - 1)
        ensures if own[i].end then |own[i].data| <= 8192 else |own[i].data| == 8192
      {
        DrainResults(s, MAX_CHUNK_SIZE, |own|, i);
        DrainSizes(s, MAX_CHUNK_SIZE, |own|, i);
      }
      assert Datas(own) == Payloads(rs);
    } else if own != [] {
      assert false;
    }
  }

  // ----- Termination ------------------------------------------------------------------------

  // Unread bytes, and one more for a stream still to be closed.
  function Weight(s: Sender): nat {
    if s.state.ClosedLocal() || s.data.None? then 0 else |Unread(s)| + 1
  }

  ghost function Work(m: Senders): nat
    decreases |m|
  {
    if m == map[] then 0
    else
      var id :| id in m;
      Weight(m[id]) + Work(m - {id})
  }

  lemma {:induction false} WorkAt(m: Senders, id: StreamId)
    requires id in m
    ensures Work(m) == Weight(m[id]) + Work(m - {id})
    decreases |m|
  {
    var first :| id in m && first in m && Work(m) == Weight(m[first]) + Work(m - {first});
    if first != id {
      WorkAt(m - {first}, id);
      WorkAt(m - {id}, first);
      assert m - {first} - {id} == m - {id} - {first};
    }
  }

  // Every chunk uses up some of the work left, so flushing ends.
  lemma WorkDecreases(m: Senders, id: StreamId)
    requires id in m && Readable(m[id])
    ensures Work(ReadStep(m, id).0) < Work(m)
  {
    var m' := ReadStep(m, id).0;
    OneRead(m[id], MAX_CHUNK_SIZE);
    WorkAt(m, id);
    WorkAt(m', id);
    assert m' - {id} == m - {id};
  }
}

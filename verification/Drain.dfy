// Repeated reads of a stream's outgoing data: get_data_chunk in src/server.rs.
module Drain {
  import opened Common
  import opened Streams

  type Read = (ChunkResult, Bytes)

  // The sending half after the given number of reads, and what each of them gave.
  function ReadMany(s: Sender, capacity: nat, calls: nat): (r: (Sender, seq<Read>))
    ensures |r.1| == calls
    decreases calls
  {
    if calls == 0 then (s, [])
    else
      var (next, result, bytes) := ReadNext(s, capacity);
      var (end, results) := ReadMany(next, capacity, calls - 1);
      (end, [(result, bytes)] + results)
  }

  function Payloads(rs: seq<Read>): seq<Bytes> {
    seq(|rs|, i requires 0 <= i < |rs| => rs[i].1)
  }

  // Reads needed to exhaust size bytes: one when there are none, else their number of capacity-sized blocks.
  function ReadsNeeded(size: nat, capacity: nat): (c: nat)
    requires capacity > 0
    ensures c >= 1
  {
    if size <= capacity then 1 else 1 + ReadsNeeded(size - capacity, capacity)
  }

  // The number of reads is the ceiling of size / capacity, but never less than one.
  lemma {:induction false} ReadsNeededIsCeiling(size: nat, capacity: nat)
    requires capacity > 0
    ensures var c := ReadsNeeded(size, capacity);
      if size == 0 then c == 1 else (c - 1) * capacity < size <= c * capacity
    decreases size
  {
    if size > capacity {
      ReadsNeededIsCeiling(size - capacity, capacity);
    }
  }

  ghost predicate Readable(s: Sender) {
    !s.state.ClosedLocal() && s.data.Some?
  }

  // What one read answers, for every stream and buffer: an error exactly when the sending side is closed, nothing
  // exactly when it is open and has no data, and else the next bytes that fit, which close the side if they are the
  // last.
  lemma ReadResults(s: Sender, capacity: nat)
    ensures var (next, result, bytes) := ReadNext(s, capacity);
      && (result.ClosedError? <==> s.state == HalfClosedLocal || s.state == Closed)
      && (result.Unavailable? <==> (s.state == Open || s.state == HalfClosedRemote) && s.data.None?)
      && (result.ClosedError? || result.Unavailable? ==> next == s && bytes == [])
      && (result.Last? || result.Chunk? ==>
            var Cursor(all, at) := s.data.value;
            && at + |bytes| <= |all| && bytes == all[at..at + |bytes|]
            && next == Sender(if result.Last? then s.state.CloseLocal() else s.state, Some(Cursor(all, at + |bytes|)))
            && (result.Last? <==> at + |bytes| == |all|)
            && result.size == |bytes| <= capacity
            && (result.Chunk? ==> |bytes| == capacity))
  {
  }

  lemma {:induction false} ReadsAfterClose(s: Sender, capacity: nat, calls: nat)
    requires s.state.ClosedLocal()
    ensures ReadMany(s, capacity, calls).0 == s
    ensures forall i | 0 <= i < calls :: ReadMany(s, capacity, calls).1[i] == (ClosedError, [])
    ensures Concat(Payloads(ReadMany(s, capacity, calls).1)) == []
  {
    if calls > 0 {
      ReadsAfterClose(s, capacity, calls - 1);
      var rs := ReadMany(s, capacity, calls).1;
      assert Payloads(rs)[1..] == Payloads(rs[1..]);
      assert rs[1..] == ReadMany(s, capacity, calls - 1).1;
    }
  }

  lemma OneRead(s: Sender, capacity: nat)
    requires capacity > 0 && Readable(s)
    ensures var (next, result, bytes) := ReadNext(s, capacity);
      && Unread(s) == bytes + Unread(next)
      && if |Unread(s)| <= capacity then
           result.Last? && Unread(next) == [] && next.state == s.state.CloseLocal() && next.state.ClosedLocal()
         else
           && result == Chunk(capacity) && Readable(next)
           && |Unread(next)| == |Unread(s)| - capacity && next.state == s.state
  {
  }

  // Full blocks, then one Last read, then only ClosedError.
  ghost predicate ExpectedResult(result: ChunkResult, i: nat, needed: nat, capacity: nat) {
    if i + 1 < needed then result == Chunk(capacity)
    else if i + 1 == needed then result.Last?
    else result.ClosedError?
  }

  lemma {:induction false} DrainResults(s: Sender, capacity: nat, calls: nat, i: nat)
    requires capacity > 0 && Readable(s) && i < calls
    ensures ExpectedResult(ReadMany(s, capacity, calls).1[i].0, i, ReadsNeeded(|Unread(s)|, capacity), capacity)
    decreases calls
  {
    hide ReadNext, Unread;
    OneRead(s, capacity);
    var (next, result, bytes) := ReadNext(s, capacity);
    var tail := ReadMany(next, capacity, calls - 1).1;
    var rs := ReadMany(s, capacity, calls).1;
    assert rs == [(result, bytes)] + tail;
    if i == 0 {
      assert rs[0] == (result, bytes);
    } else {
      assert rs[i] == tail[i - 1];
      if result.Last? {
        ReadsAfterClose(next, capacity, calls - 1);
      } else {
        DrainResults(next, capacity, calls - 1, i - 1);
      }
    }
  }

  // Every read reports the number of bytes it copied, never more than fit.
  lemma {:induction false} DrainSizes(s: Sender, capacity: nat, calls: nat, i: nat)
    requires i < calls
    ensures var (result, bytes) := ReadMany(s, capacity, calls).1[i];
      |bytes| == (if result.Last? || result.Chunk? then result.size else 0) <= capacity
    decreases calls
  {
    hide ReadNext;
    ReadResults(s, capacity);
    var (next, result, bytes) := ReadNext(s, capacity);
    if i > 0 {
      DrainSizes(next, capacity, calls - 1, i - 1);
    }
  }

  // The unread bytes are delivered in order, none twice, and the sending side closes exactly when enough reads were
  // made.
  lemma {:induction false} DrainDelivers(s: Sender, capacity: nat, calls: nat)
    requires capacity > 0 && Readable(s)
    ensures var (end, rs) := ReadMany(s, capacity, calls);
      var needed := ReadsNeeded(|Unread(s)|, capacity);
      && Unread(s) == Concat(Payloads(rs)) + Unread(end)
      && (if calls >= needed then Unread(end) == [] && end.state == s.state.CloseLocal() else Readable(end))
    decreases calls
  {
    hide ReadNext, Unread;
    if calls > 0 {
      OneRead(s, capacity);
      var (next, result, bytes) := ReadNext(s, capacity);
      var (end, tail) := ReadMany(next, capacity, calls - 1);
      assert Payloads([(result, bytes)] + tail)[1..] == Payloads(tail);
      if result.Last? {
        ReadsAfterClose(next, capacity, calls - 1);
      } else {
        DrainDelivers(next, capacity, calls - 1);
      }
      Assoc(bytes, Concat(Payloads(tail)), Unread(end));
    }
  }

  lemma {:induction false} ZeroCapacityStalls(s: Sender, calls: nat)
    requires Readable(s) && Unread(s) != []
    ensures ReadMany(s, 0, calls).0 == s
  {
    if calls > 0 {
      var cursor := s.data.value;
      assert ReadNext(s, 0).0 == Sender(s.state, Some(Cursor(cursor.bytes, cursor.position)));
      ZeroCapacityStalls(s, calls - 1);
    }
  }

  // A stream can be drained exactly when the buffer has room or there is nothing to read.
  lemma DrainsIff(s: Sender, capacity: nat)
    requires Readable(s)
    ensures (exists calls: nat :: ReadMany(s, capacity, calls).0.state.ClosedLocal())
       <==> capacity > 0 || Unread(s) == []
  {
    if capacity > 0 {
      DrainDelivers(s, capacity, ReadsNeeded(|Unread(s)|, capacity));
    } else if Unread(s) == [] {
      var next := ReadNext(s, capacity).0;
      assert next.state.ClosedLocal();
      assert ReadMany(next, capacity, 0).0 == next;
      assert ReadMany(s, capacity, 1).0 == next;
    } else {
      forall calls: nat ensures !ReadMany(s, capacity, calls).0.state.ClosedLocal() {
        ZeroCapacityStalls(s, calls);
      }
    }
  }
}

// What the connection sends: the grammar of one pass, and how the passes of a run relate.
module Responses {
  import opened Common
  import opened Framing
  import opened Method
  import opened Batch
  import opened Streams
  import opened Sessions
  import opened Isolation

  // ----- One pass ---------------------------------------------------------------------------

  // Reads back a concatenation of HEADERS, DATA, HEADERS triples (section 8.1 of RFC 7540).
  function ReadTriples(fs: seq<HttpFrame>): Option<seq<Response>> {
    if fs == [] then Some([])
    else if |fs| < 3 || !fs[1].DataFrame? || fs[..3] != Triple((fs[1].id, fs[1].data)) then None
    else
      match ReadTriples(fs[3..])
      case None => None
      case Some(rs) => Some([(fs[1].id, fs[1].data)] + rs)
  }

  // Status 200 and the content type, each once and nothing else, the pseudo-header first.
  predicate OpensAnswer(headers: seq<Header>) {
    && |headers| == 2 && PseudoFirst(headers)
    && ValuesOf(headers, Ascii(":status")) == [Ascii("200")]
    && ValuesOf(headers, Ascii("content-type")) == [Ascii("application/grpc")]
  }

  // Status 0 alone.
  predicate ClosesAnswer(trailers: seq<Header>) {
    |trailers| == 1 && ValuesOf(trailers, Ascii("grpc-status")) == [Ascii("0")]
  }

  // A whole gRPC answer: response headers, the payload, and trailers that end the stream.
  predicate IsAnswer(fs: seq<HttpFrame>, id: StreamId, payload: Bytes) {
    && |fs| == 3
    && fs[0].HeadersFrame? && fs[0].id == id && OpensAnswer(fs[0].headers) && !fs[0].end
    && fs[1] == DataFrame(id, payload, false)
    && fs[2].HeadersFrame? && fs[2].id == id && ClosesAnswer(fs[2].headers) && fs[2].end
  }

  lemma TripleIsAnswer(r: Response)
    ensures IsAnswer(Triple(r), r.0, r.1)
  {
    var status, kind := RESPONSE_HEADERS[0], RESPONSE_HEADERS[1];
    assert RESPONSE_HEADERS == [status] + [kind] && TRAILERS == [TRAILERS[0]] + [];
    assert status.name == Ascii(":status") && status.value == Ascii("200");
    assert kind.name == Ascii("content-type") && kind.value == Ascii("application/grpc");
    assert TRAILERS[0].name == Ascii("grpc-status") && TRAILERS[0].value == Ascii("0");
    assert [status][1..] == [] && [kind][1..] == [] && RESPONSE_HEADERS[1..] == [kind] && TRAILERS[1..] == [];
    assert |Ascii(":status")| != |Ascii("content-type")|;
  }

  // What goes out for the k-th response of a pass is a gRPC answer with its payload.
  lemma {:induction false} SentAreAnswers(rs: seq<Response>, k: nat)
    requires k < |rs|
    ensures 3 * k + 3 <= |Triples(rs)| && IsAnswer(Triples(rs)[3 * k..3 * k + 3], rs[k].0, rs[k].1)
  {
    hide IsAnswer, Triple;
    TriplesLength(rs);
    TriplesLength(rs[1..]);
    if k == 0 {
      TripleIsAnswer(rs[0]);
      assert Triples(rs)[..3] == Triple(rs[0]);
    } else {
      SentAreAnswers(rs[1..], k - 1);
      assert Triples(rs)[3 * k..3 * k + 3] == Triples(rs[1..])[3 * (k - 1)..3 * (k - 1) + 3];
    }
  }

  // The outbound grammar, in both directions: the frames sent are triples, and nothing else reads as triples.
  lemma {:induction false} TriplesGrammar(fs: seq<HttpFrame>, rs: seq<Response>)
    ensures ReadTriples(fs) == Some(rs) <==> fs == Triples(rs)
    decreases |fs|
  {
    if fs != [] && ReadTriples(fs) == Some(rs) {
      TriplesGrammar(fs[3..], rs[1..]);
      assert fs == fs[..3] + fs[3..];
    }
    if rs != [] && fs == Triples(rs) {
      assert fs[..3] == Triple(rs[0]) && fs[3..] == Triples(rs[1..]);
      assert fs[1] == Triple(rs[0])[1];
      TriplesGrammar(fs[3..], rs[1..]);
      assert [rs[0]] + rs[1..] == rs;
    }
  }

  // END_STREAM is on the third frame of each triple and on no other.
  lemma {:induction false} EndStreamPositions(rs: seq<Response>, k: nat)
    requires k < |Triples(rs)|
    ensures |Triples(rs)| == 3 * |rs|
    ensures EndsStream(Triples(rs)[k]) <==> k % 3 == 2
    ensures k / 3 < |rs| && Triples(rs)[k] == Triple(rs[k / 3])[k % 3]
  {
    TriplesLength(rs);
    if k >= 3 {
      TriplesLength(rs[1..]);
      EndStreamPositions(rs[1..], k - 3);
    }
  }

  lemma {:induction false} TriplesLength(rs: seq<Response>)
    ensures |Triples(rs)| == 3 * |rs|
  {
    if rs != [] {
      TriplesLength(rs[1..]);
    }
  }

  lemma {:induction false} OwnAppend(a: seq<HttpFrame>, b: seq<HttpFrame>, id: StreamId)
    ensures Own(a + b, id) == Own(a, id) + Own(b, id)
  {
    if a == [] {
      assert a + b == b;
    } else {
      assert (a + b)[1..] == a[1..] + b;
      OwnAppend(a[1..], b, id);
    }
  }

  lemma OwnTriple(r: Response, id: StreamId)
    ensures Own(Triple(r), id) == if r.0 == id then Triple(r) else []
  {
    var t := Triple(r);
    assert t == [t[0]] + ([t[1]] + [t[2]]);
    OwnSingle(t[0], id);
    OwnSingle(t[1], id);
    OwnSingle(t[2], id);
    OwnAppend([t[1]], [t[2]], id);
    OwnAppend([t[0]], [t[1]] + [t[2]], id);
  }

  lemma OwnSingle(f: HttpFrame, id: StreamId)
    ensures Own([f], id) == if Addresses(f, id) then [f] else []
  {
    assert [f][1..] == [];
    assert Own([], id) == [];
  }

  lemma {:induction false} OwnTriplesAbsent(rs: seq<Response>, id: StreamId)
    requires forall r <- rs :: r.0 != id
    ensures Own(Triples(rs), id) == []
  {
    if rs != [] {
      OwnTriplesAbsent(rs[1..], id);
      OwnTriple(rs[0], id);
      OwnAppend(Triple(rs[0]), Triples(rs[1..]), id);
    }
  }

  lemma {:induction false} OwnTriplesPresent(rs: seq<Response>, i: nat)
    requires i < |rs| && forall j, k | 0 <= j < k < |rs| :: rs[j].0 != rs[k].0
    ensures Own(Triples(rs), rs[i].0) == Triple(rs[i])
  {
    var id := rs[i].0;
    OwnTriple(rs[0], id);
    OwnAppend(Triple(rs[0]), Triples(rs[1..]), id);
    if i == 0 {
      forall r <- rs[1..] ensures r.0 != id {
        var k :| 0 <= k < |rs[1..]| && rs[1..][k] == r;
        assert rs[k + 1] == r;
      }
      OwnTriplesAbsent(rs[1..], id);
    } else {
      OwnTriplesPresent(rs[1..], i - 1);
    }
  }

  // In one pass a stream is sent exactly one triple carrying its whole response buffer, or nothing at all.
  lemma OwnTriples(s: Session, rs: seq<Response>, id: StreamId)
    requires IsResponses(s, rs)
    ensures Own(Triples(rs), id) == if id in s && s[id].respBuf != [] then Triple((id, s[id].respBuf)) else []
  {
    if id in s && s[id].respBuf != [] {
      var i :| 0 <= i < |rs| && rs[i] == (id, s[id].respBuf);
      OwnTriplesPresent(rs, i);
    } else {
      OwnTriplesAbsent(rs, id);
    }
  }

  // ----- The passes of a run ----------------------------------------------------------------

  // The session before pass k, and the one its responses are read from.
  ghost function Before(service: Service, s: Session, passes: seq<Pass>, k: nat): Session
    requires k <= |passes|
  {
    RunEnd(service, s, Frames(passes[..k]))
  }

  ghost function During(service: Service, s: Session, passes: seq<Pass>, k: nat): Session
    requires k < |passes|
  {
    HandleFrame(service, Before(service, s, passes, k), passes[k].frame).0
  }

  lemma {:induction false} RunEndAppend(service: Service, s: Session, a: seq<HttpFrame>, f: HttpFrame)
    ensures RunEnd(service, s, a + [f]) == AfterPass(service, RunEnd(service, s, a), f)
    decreases |a|
  {
    if a == [] {
      assert a + [f] == [f];
      assert [f][1..] == [];
      var next := AfterPass(service, s, f);
      assert RunEnd(service, next, []) == next;
    } else {
      assert (a + [f])[1..] == a[1..] + [f];
      RunEndAppend(service, AfterPass(service, s, a[0]), a[1..], f);
    }
  }

  lemma BeforeNext(service: Service, s: Session, passes: seq<Pass>, k: nat)
    requires k < |passes|
    ensures Before(service, s, passes, k + 1) == Reap(During(service, s, passes, k))
  {
    assert Frames(passes[..k + 1]) == Frames(passes[..k]) + [passes[k].frame];
    RunEndAppend(service, s, Frames(passes[..k]), passes[k].frame);
  }

  lemma {:induction false} PassOkAt(service: Service, s: Session, passes: seq<Pass>, k: nat)
    requires k < |passes| && RunOk(service, s, passes) && SessionInvariant(service, s)
    ensures PassOk(service, Before(service, s, passes, k), passes[k])
    ensures SessionInvariant(service, Before(service, s, passes, k))
    ensures SessionInvariant(service, During(service, s, passes, k))
    decreases k
  {
    FrameKeepsInvariant(service, s, passes[0].frame);
    if k == 0 {
      assert Frames(passes[..0]) == [];
    } else {
      var next := AfterPass(service, s, passes[0].frame);
      PassOkAt(service, next, passes[1..], k - 1);
      assert Frames(passes[..k])[1..] == Frames(passes[1..][..k - 1]);
      assert Frames(passes[..k])[0] == passes[0].frame;
    }
    FrameKeepsInvariant(service, Before(service, s, passes, k), passes[k].frame);
  }

  // A frame never shortens what a live stream has dispatched or has to say.
  lemma FrameGrows(service: Service, s: Session, f: HttpFrame, id: StreamId)
    requires id in s && HandleFrame(service, s, f).1.Running?
    ensures var s' := HandleFrame(service, s, f).0;
      id in s' && s[id].log <= s'[id].log && s[id].respBuf <= s'[id].respBuf
  {
  }

  // The stream stays in the session from pass i up to the start of pass j.
  ghost predicate LiveBetween(service: Service, s: Session, passes: seq<Pass>, id: StreamId, i: nat, j: nat)
    requires i <= j <= |passes|
  {
    forall k | i < k <= j :: id in Before(service, s, passes, k)
  }

  lemma {:induction false} LogsGrow(service: Service, s: Session, passes: seq<Pass>, id: StreamId, i: nat, j: nat)
    requires SessionInvariant(service, s) && RunOk(service, s, passes)
    requires i <= j < |passes| && LiveBetween(service, s, passes, id, i, j)
    requires id in During(service, s, passes, i)
    ensures id in During(service, s, passes, j)
    ensures During(service, s, passes, i)[id].log <= During(service, s, passes, j)[id].log
    ensures During(service, s, passes, i)[id].respBuf <= During(service, s, passes, j)[id].respBuf
    decreases j - i
  {
    hide HandleFrame, SessionInvariant, RunOk;
    if i < j {
      LogsGrow(service, s, passes, id, i, j - 1);
      BeforeNext(service, s, passes, j - 1);
      PassOkAt(service, s, passes, j);
      assert id in Before(service, s, passes, j);
      FrameGrows(service, Before(service, s, passes, j), passes[j].frame, id);
    }
  }

  // The response prefix chain: the payloads sent for one live stream extend one another, and each is exactly the
  // encoding of the replies to the messages completed so far.
  lemma PrefixChain(service: Service, s: Session, passes: seq<Pass>, id: StreamId, i: nat, j: nat,
                    sent: Bytes, resent: Bytes)
    requires SessionInvariant(service, s) && RunOk(service, s, passes)
    requires i <= j < |passes| && LiveBetween(service, s, passes, id, i, j)
    requires (id, sent) in passes[i].responses && (id, resent) in passes[j].responses
    ensures sent <= resent
    ensures id in During(service, s, passes, i) && id in During(service, s, passes, j)
    ensures var log := During(service, s, passes, i)[id].log;
      && log <= During(service, s, passes, j)[id].log
      && sent == EncodeAll(Replies(log))
      && (AllShort(Replies(log)) ==> SplitFrames(sent) == Split(Replies(log), []))
  {
    PassOkAt(service, s, passes, i);
    PassOkAt(service, s, passes, j);
    LogsGrow(service, s, passes, id, i, j);
    var log := During(service, s, passes, i)[id].log;
    if AllShort(Replies(log)) {
      SplitEncoded(Replies(log), []);
      assert EncodeAll(Replies(log)) + [] == sent;
    }
  }

  // ----- Repeated delivery ------------------------------------------------------------------

  // How many passes send something for the stream.
  function Deliveries(passes: seq<Pass>, id: StreamId): nat {
    if passes == [] then 0
    else (if exists r <- passes[0].responses :: r.0 == id then 1 else 0) + Deliveries(passes[1..], id)
  }

  lemma DeliveredIff(service: Service, s: Session, passes: seq<Pass>, id: StreamId, k: nat)
    requires SessionInvariant(service, s) && RunOk(service, s, passes) && k < |passes|
    ensures (exists r <- passes[k].responses :: r.0 == id)
       <==> id in During(service, s, passes, k) && During(service, s, passes, k)[id].log != []
  {
    PassOkAt(service, s, passes, k);
    var now := During(service, s, passes, k);
    if id in now {
      EncodeAllLength(Replies(now[id].log));
      if now[id].respBuf != [] {
        assert (id, now[id].respBuf) in passes[k].responses;
      }
    }
  }

  lemma {:induction false} DeliveriesFrom(passes: seq<Pass>, id: StreamId, first: nat)
    requires first <= |passes|
    requires forall k | 0 <= k < |passes| :: (exists r <- passes[k].responses :: r.0 == id) <==> k >= first
    ensures Deliveries(passes, id) == |passes| - first
  {
    if passes != [] {
      forall k | 0 <= k < |passes[1..]|
        ensures (exists r <- passes[1..][k].responses :: r.0 == id) <==> k >= (if first == 0 then 0 else first - 1)
      {
        assert passes[1..][k] == passes[k + 1];
      }
      DeliveriesFrom(passes[1..], id, if first == 0 then 0 else first - 1);
    }
  }

  // The response buffer is never emptied, so a stream that stays in the session is answered again by every pass
  // from the one that completes its first message.
  lemma ResentByEveryPass(service: Service, s: Session, passes: seq<Pass>, id: StreamId, first: nat)
    requires SessionInvariant(service, s) && RunOk(service, s, passes)
    requires first < |passes| && LiveBetween(service, s, passes, id, first, |passes| - 1)
    requires forall k | 0 <= k < first && id in During(service, s, passes, k) ::
               During(service, s, passes, k)[id].log == []
    requires id in During(service, s, passes, first) && During(service, s, passes, first)[id].log != []
    ensures Deliveries(passes, id) == |passes| - first
  {
    forall k | 0 <= k < |passes|
      ensures (exists r <- passes[k].responses :: r.0 == id) <==> k >= first
    {
      DeliveredIff(service, s, passes, id, k);
      if first <= k {
        assert LiveBetween(service, s, passes, id, first, k);
        LogsGrow(service, s, passes, id, first, k);
      }
    }
    DeliveriesFrom(passes, id, first);
  }

  lemma {:induction false} SendingOpenAt(service: Service, s: Session, passes: seq<Pass>, k: nat)
    requires SessionInvariant(service, s) && RunOk(service, s, passes) && SendingOpen(s) && k <= |passes|
    ensures SendingOpen(Before(service, s, passes, k))
    decreases k
  {
    hide HandleFrame, SessionInvariant, RunOk, SendingOpen;
    if k == 0 {
      assert Frames(passes[..0]) == [];
    } else {
      SendingOpenAt(service, s, passes, k - 1);
      PassOkAt(service, s, passes, k - 1);
      BeforeNext(service, s, passes, k - 1);
      SendingStaysOpen(service, Before(service, s, passes, k - 1), passes[k - 1].frame);
    }
  }

  // The frame that completes a stream's first message is DATA, and DATA alone never closes the server's side.
  lemma FirstReplyKeepsStream(service: Service, s: Session, f: HttpFrame, id: StreamId)
    requires SendingOpen(s) && (id in s ==> s[id].log == [])
    requires HandleFrame(service, s, f).1.Running?
    requires id in HandleFrame(service, s, f).0 && HandleFrame(service, s, f).0[id].log != []
    ensures id in AfterPass(service, s, f) && AfterPass(service, s, f)[id].log != []
  {
  }

  lemma {:induction false} DeliveredAt(passes: seq<Pass>, id: StreamId, k: nat)
    requires k < |passes| && exists r <- passes[k].responses :: r.0 == id
    ensures Deliveries(passes, id) >= 1 + Deliveries(passes[k + 1..], id)
  {
    if k > 0 {
      DeliveredAt(passes[1..], id, k - 1);
      assert passes[1..][k..] == passes[k + 1..];
    }
  }

  // What the pass after the first reply does: the stream is still there, so it is answered again.
  lemma NextPassRepeats(service: Service, s: Session, passes: seq<Pass>, id: StreamId, first: nat)
    requires SessionInvariant(service, s) && RunOk(service, s, passes) && SendingOpen(s)
    requires first + 1 < |passes| && (id in s ==> s[id].log == [])
    requires forall k | 0 <= k < first && id in During(service, s, passes, k) ::
               During(service, s, passes, k)[id].log == []
    requires id in During(service, s, passes, first) && During(service, s, passes, first)[id].log != []
    ensures id in During(service, s, passes, first + 1) && During(service, s, passes, first + 1)[id].log != []
  {
    hide HandleFrame, SessionInvariant, RunOk, SendingOpen;
    var before := Before(service, s, passes, first);
    if first == 0 {
      assert Frames(passes[..0]) == [];
    } else {
      BeforeNext(service, s, passes, first - 1);
    }
    SendingOpenAt(service, s, passes, first);
    PassOkAt(service, s, passes, first);
    PassOkAt(service, s, passes, first + 1);
    FirstReplyKeepsStream(service, before, passes[first].frame, id);
    BeforeNext(service, s, passes, first);
    FrameGrows(service, Before(service, s, passes, first + 1), passes[first + 1].frame, id);
  }

  // On every run, resets included: what a stream has to say goes out exactly once if and only if the pass that
  // completes its first message is the last one.
  lemma OnceIffLast(service: Service, s: Session, passes: seq<Pass>, id: StreamId, first: nat)
    requires SessionInvariant(service, s) && RunOk(service, s, passes) && SendingOpen(s)
    requires first < |passes| && (id in s ==> s[id].log == [])
    requires forall k | 0 <= k < first && id in During(service, s, passes, k) ::
               During(service, s, passes, k)[id].log == []
    requires id in During(service, s, passes, first) && During(service, s, passes, first)[id].log != []
    ensures Deliveries(passes, id) == 1 <==> first == |passes| - 1
  {
    hide RunOk, SessionInvariant, SendingOpen;
    if first == |passes| - 1 {
      forall k | 0 <= k < |passes|
        ensures (exists r <- passes[k].responses :: r.0 == id) <==> k >= first
      {
        DeliveredIff(service, s, passes, id, k);
      }
      DeliveriesFrom(passes, id, first);
    } else {
      NextPassRepeats(service, s, passes, id, first);
      DeliveredIff(service, s, passes, id, first);
      DeliveredIff(service, s, passes, id, first + 1);
      DeliveredAt(passes, id, first);
      assert passes[first + 1..][0] == passes[first + 1];
      DeliveredAt(passes[first + 1..], id, 0);
    }
  }
}

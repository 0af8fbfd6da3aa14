// What one pass of the server connection does to its streams, as values: GrpcServerConnection in src/server.rs.
module Sessions {
  import opened Common
  import opened Method
  import opened Streams

  // The streams a connection knows, by id.
  type Session = map<StreamId, StreamView>

  // The frames a session reacts to, in either direction; OtherFrame touches no stream (SETTINGS, PING, ...).
  datatype HttpFrame =
    | HeadersFrame(id: StreamId, headers: seq<Header>, end: bool)
    | DataFrame(id: StreamId, data: Bytes, end: bool)
    | ResetFrame(id: StreamId)
    | OtherFrame

  datatype Error = UnknownStreamId | WireClosed | EndOfInput

  // How an operation on the connection ended.
  datatype Status = Running | Failed(error: Error) | Panicked(reason: PanicReason)

  function StatusOf(outcome: Outcome<()>): Status {
    match outcome
    case Done(_) => Running
    case Panic(reason) => Panicked(reason)
  }

  // The payloads of DATA frames.
  function Datas(fs: seq<HttpFrame>): seq<Bytes> {
    seq(|fs|, i requires 0 <= i < |fs| => if fs[i].DataFrame? then fs[i].data else [])
  }

  lemma DatasHead(f: HttpFrame, fs: seq<HttpFrame>)
    requires f.DataFrame?
    ensures Concat(Datas([f] + fs)) == f.data + Concat(Datas(fs))
  {
    assert Datas([f] + fs)[1..] == Datas(fs);
  }

  predicate EndsStream(f: HttpFrame) {
    (f.HeadersFrame? || f.DataFrame?) && f.end
  }

  predicate Addresses(f: HttpFrame, id: StreamId) {
    !f.OtherFrame? && f.id == id
  }

  // ----- Reading header lists ---------------------------------------------------------------

  // The values given for a name, in order.
  function ValuesOf(headers: seq<Header>, name: Bytes): seq<Bytes> {
    if headers == [] then []
    else (if headers[0].name == name then [headers[0].value] else []) + ValuesOf(headers[1..], name)
  }

  predicate IsPseudo(h: Header) {
    h.name != [] && h.name[0] == ':' as int
  }

  // Pseudo-header fields come before the others (section 8.1.2.1 of RFC 7540).
  predicate PseudoFirst(headers: seq<Header>) {
    forall i, j | 0 <= i < j < |headers| && IsPseudo(headers[j]) :: IsPseudo(headers[i])
  }

  // ----- Receiving one frame ----------------------------------------------------------------

  function EndIf(v: StreamView, end: bool): StreamView {
    if end then v.(state := v.state.CloseRemote()) else v
  }

  // One frame on one stream, which may not exist yet; an unknown stream can only be opened or reset.
  ghost function OnFrame(service: Service, v: Option<StreamView>, f: HttpFrame): (Option<StreamView>, Status)
    requires !f.OtherFrame?
  {
    match f
    case HeadersFrame(_, headers, end) =>
      var (next, outcome) := HeadersSpec(if v.Some? then v.value else FRESH, headers);
      if outcome.Panic? then (if v.Some? then Some(next) else None, StatusOf(outcome))
      else (Some(EndIf(next, end)), Running)
    case DataFrame(_, data, end) =>
      if v.None? then (None, Failed(UnknownStreamId))
      else
        var (next, outcome) := DataSpec(service, v.value, data);
        if outcome.Panic? then (Some(next), StatusOf(outcome)) else (Some(EndIf(next, end)), Running)
    case ResetFrame(_) =>
      (if v.Some? then Some(v.value.(state := Closed)) else None, Running)
  }

  function At(s: Session, id: StreamId): Option<StreamView> {
    if id in s then Some(s[id]) else None
  }

  function Put(s: Session, id: StreamId, v: Option<StreamView>): Session {
    if v.Some? then s[id := v.value] else s - {id}
  }

  ghost function HandleFrame(service: Service, s: Session, f: HttpFrame): (Session, Status) {
    if f.OtherFrame? then (s, Running)
    else
      var (v, status) := OnFrame(service, At(s, f.id), f);
      (Put(s, f.id, v), status)
  }

  // ----- Answering --------------------------------------------------------------------------

  type Response = (StreamId, Bytes)

  // handle_requests: one entry per stream with something to say, in the map's own, unspecified order.
  ghost predicate IsResponses(s: Session, rs: seq<Response>) {
    && (forall i, j | 0 <= i < j < |rs| :: rs[i].0 != rs[j].0)
    && (forall r <- rs :: r.0 in s && r.1 == s[r.0].respBuf && r.1 != [])
    && (forall id | id in s && s[id].respBuf != [] :: (id, s[id].respBuf) in rs)
  }

  // ":status: 200", "content-type: application/grpc"
  const RESPONSE_HEADERS: seq<Header> := [
    Header([0x3A, 0x73, 0x74, 0x61, 0x74, 0x75, 0x73], [0x32, 0x30, 0x30]),
    Header([0x63, 0x6F, 0x6E, 0x74, 0x65, 0x6E, 0x74, 0x2D, 0x74, 0x79, 0x70, 0x65],
           [0x61, 0x70, 0x70, 0x6C, 0x69, 0x63, 0x61, 0x74, 0x69, 0x6F, 0x6E, 0x2F, 0x67, 0x72, 0x70, 0x63])]

  // "grpc-status", "0"
  const GRPC_STATUS: Bytes := [0x67, 0x72, 0x70, 0x63, 0x2D, 0x73, 0x74, 0x61, 0x74, 0x75, 0x73]
  const STATUS_OK: Bytes := [0x30]

  const TRAILERS: seq<Header> := [Header(GRPC_STATUS, STATUS_OK)]

  function Triple(r: Response): (fs: seq<HttpFrame>)
    ensures |fs| == 3
  {
    [HeadersFrame(r.0, RESPONSE_HEADERS, false), DataFrame(r.0, r.1, false), HeadersFrame(r.0, TRAILERS, true)]
  }

  function Triples(rs: seq<Response>): seq<HttpFrame> {
    if rs == [] then [] else Triple(rs[0]) + Triples(rs[1..])
  }

  // ----- Reaping ----------------------------------------------------------------------------

  // get_closed: the streams that are closed in both directions leave the session.
  function Reap(s: Session): Session {
    map id | id in s && !s[id].state.Closed? :: s[id]
  }

  // ----- Whole passes -----------------------------------------------------------------------

  // One turn of the connection loop: the frame handled and the responses then sent.
  datatype Pass = Pass(frame: HttpFrame, responses: seq<Response>)

  ghost function AfterPass(service: Service, s: Session, f: HttpFrame): Session {
    Reap(HandleFrame(service, s, f).0)
  }

  ghost predicate PassOk(service: Service, s: Session, p: Pass) {
    && HandleFrame(service, s, p.frame).1.Running?
    && IsResponses(HandleFrame(service, s, p.frame).0, p.responses)
  }

  // A run of passes, none of which fails or panics.
  ghost predicate RunOk(service: Service, s: Session, passes: seq<Pass>)
    decreases |passes|
  {
    passes == [] ||
    (PassOk(service, s, passes[0]) && RunOk(service, AfterPass(service, s, passes[0].frame), passes[1..]))
  }

  ghost function RunEnd(service: Service, s: Session, frames: seq<HttpFrame>): Session
    decreases |frames|
  {
    if frames == [] then s else RunEnd(service, AfterPass(service, s, frames[0]), frames[1..])
  }

  ghost predicate RunsClean(service: Service, s: Session, frames: seq<HttpFrame>)
    decreases |frames|
  {
    frames == [] ||
    (HandleFrame(service, s, frames[0]).1.Running? && RunsClean(service, AfterPass(service, s, frames[0]), frames[1..]))
  }

  function Frames(passes: seq<Pass>): (fs: seq<HttpFrame>)
    ensures |fs| == |passes|
  {
    seq(|passes|, i requires 0 <= i < |passes| => passes[i].frame)
  }

  // Everything sent during the passes.
  function Output(passes: seq<Pass>): seq<HttpFrame> {
    if passes == [] then [] else Triples(passes[0].responses) + Output(passes[1..])
  }

  // The sending halves of a session's streams, and the session with these replaced.
  function SendersOf(s: Session): map<StreamId, Sender> {
    map id | id in s :: SenderOf(s[id])
  }

  function WithSenders(s: Session, m: map<StreamId, Sender>): Session {
    map id | id in s && id in m :: WithSender(s[id], m[id])
  }
}

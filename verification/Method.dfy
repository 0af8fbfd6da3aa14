// Marshallers, method descriptors and dispatch: src/marshall.rs and src/method.rs.
module Method {
  import opened Common
  import opened Utf8

  // A Marshaller<M> trait object; either direction may panic.
  datatype Marshaller<!M> = Marshaller(write: M -> Outcome<Bytes>, read: Bytes -> Outcome<M>)

  // Reading back what was written gives the same message.
  ghost predicate Lawful<M(!new)>(marshaller: Marshaller<M>) {
    forall m: M {:trigger marshaller.write(m)} ::
      marshaller.write(m).Done? ==> marshaller.read(marshaller.write(m).value) == Done(m)
  }

  const MARSHALLER_BYTES: Marshaller<Bytes> := Marshaller((m: Bytes) => Done(m), (b: Bytes) => Done(b))

  // A Rust String: bytes that are UTF-8.
  type RustString = s: Bytes | ValidUtf8(s)

  // Reading a string unwraps String::from_utf8.
  const MARSHALLER_STRING: Marshaller<RustString> := Marshaller(WriteString, ReadString)

  function WriteString(m: RustString): Outcome<Bytes> {
    Done(m)
  }

  function ReadString(bytes: Bytes): Outcome<RustString> {
    if ValidUtf8(bytes) then Done(bytes) else Panic(InvalidUtf8)
  }

  datatype MethodDescriptor<!Req, !Resp> = MethodDescriptor(
    name: Bytes,
    clientStreaming: bool,
    serverStreaming: bool,
    reqMarshaller: Marshaller<Req>,
    respMarshaller: Marshaller<Resp>)

  // A MethodHandler; the handler is taken to be a function of its request.
  type Handler<!Req, !Resp> = Req -> Outcome<Resp>

  // MethodHandlerDispatchImpl::on_message.
  function OnMessage<Req, Resp>(desc: MethodDescriptor<Req, Resp>, handler: Handler<Req, Resp>, message: Bytes)
    : Outcome<Bytes>
  {
    match desc.reqMarshaller.read(message)
    case Panic(reason) => Panic(reason)
    case Done(req) =>
      match handler(req)
      case Panic(reason) => Panic(reason)
      case Done(resp) => desc.respMarshaller.write(resp)
  }

  // A registered method, its request and response types erased.
  datatype ServerMethod = ServerMethod(name: Bytes, dispatch: Bytes -> Outcome<Bytes>)

  function NewServerMethod<Req, Resp>(desc: MethodDescriptor<Req, Resp>, handler: Handler<Req, Resp>): ServerMethod {
    ServerMethod(desc.name, message => OnMessage(desc, handler, message))
  }

  // ServerServiceDefinition: the registered methods in order.
  type Service = seq<ServerMethod>

  // First match by name; a panic when there is none.
  function FindMethod(methods: Service, name: Bytes): Outcome<ServerMethod> {
    if methods == [] then Panic(UnknownMethod(name))
    else if methods[0].name == name then Done(methods[0])
    else FindMethod(methods[1..], name)
  }

  function HandleMethod(methods: Service, name: Bytes, message: Bytes): Outcome<Bytes> {
    match FindMethod(methods, name)
    case Panic(reason) => Panic(reason)
    case Done(m) => m.dispatch(message)
  }

  // Lookup returns the method at the least index that bears the name, and panics iff no method does.
  lemma {:induction false} FirstMatch(methods: Service, name: Bytes)
    ensures FindMethod(methods, name).Panic? <==> (forall i | 0 <= i < |methods| :: methods[i].name != name)
    ensures FindMethod(methods, name).Panic? ==> FindMethod(methods, name) == Panic(UnknownMethod(name))
    ensures forall i | 0 <= i < |methods| && methods[i].name == name
                       && (forall j | 0 <= j < i :: methods[j].name != name) ::
              FindMethod(methods, name) == Done(methods[i])
  {
    if methods != [] {
      FirstMatch(methods[1..], name);
      forall i | 0 < i < |methods| && methods[i].name == name && (forall j | 0 <= j < i :: methods[j].name != name)
        ensures FindMethod(methods, name) == Done(methods[i])
      {
        forall j | 0 <= j < i - 1 ensures methods[1..][j].name != name {
          assert methods[1..][j] == methods[j + 1];
        }
        assert methods[1..][i - 1] == methods[i];
      }
      if FindMethod(methods, name).Panic? {
        forall i | 0 <= i < |methods| ensures methods[i].name != name {
          assert i > 0 ==> methods[1..][i - 1] == methods[i];
        }
      }
    }
  }

  // What a registered method makes of any bytes at all: it answers exactly when reading, handling and writing all
  // succeed, and otherwise panics as the first of the three that panics.
  lemma HandlesIff<Req(!new), Resp(!new)>(methods: Service, desc: MethodDescriptor<Req, Resp>,
                                          handler: Handler<Req, Resp>, message: Bytes,
                                          answer: Bytes, reason: PanicReason)
    requires FindMethod(methods, desc.name) == Done(NewServerMethod(desc, handler))
    ensures HandleMethod(methods, desc.name, message) == Done(answer) <==>
      exists req, resp ::
        && desc.reqMarshaller.read(message) == Done(req)
        && handler(req) == Done(resp)
        && desc.respMarshaller.write(resp) == Done(answer)
    ensures HandleMethod(methods, desc.name, message) == Panic(reason) <==>
      || desc.reqMarshaller.read(message) == Panic(reason)
      || (exists req :: desc.reqMarshaller.read(message) == Done(req) && handler(req) == Panic(reason))
      || (exists req, resp ::
            && desc.reqMarshaller.read(message) == Done(req)
            && handler(req) == Done(resp)
            && desc.respMarshaller.write(resp) == Panic(reason))
  {
    assert NewServerMethod(desc, handler).dispatch(message) == OnMessage(desc, handler, message);
  }

  // A registered method answers an encoded request with the encoding of the handler's answer.
  lemma DispatchedCall<Req(!new), Resp(!new)>(methods: Service, desc: MethodDescriptor<Req, Resp>,
                                              handler: Handler<Req, Resp>, req: Req)
    requires FindMethod(methods, desc.name) == Done(NewServerMethod(desc, handler))
    requires Lawful(desc.reqMarshaller) && Lawful(desc.respMarshaller)
    requires desc.reqMarshaller.write(req).Done?
    ensures var r := HandleMethod(methods, desc.name, desc.reqMarshaller.write(req).value);
      match handler(req)
      case Panic(reason) => r == Panic(reason)
      case Done(resp) =>
        && r == desc.respMarshaller.write(resp)
        && (r.Done? ==> desc.respMarshaller.read(r.value) == Done(resp))
  {
    assert NewServerMethod(desc, handler).dispatch(desc.reqMarshaller.write(req).value)
        == OnMessage(desc, handler, desc.reqMarshaller.write(req).value);
  }

  // MarshallerBytes copies in both directions, so it keeps the law and never panics.
  lemma MarshallerBytesLawful()
    ensures Lawful(MARSHALLER_BYTES)
    ensures forall m: Bytes :: MARSHALLER_BYTES.write(m) == Done(m) && MARSHALLER_BYTES.read(m) == Done(m)
  {
    forall m: Bytes ensures MARSHALLER_BYTES.write(m) == Done(m) && MARSHALLER_BYTES.read(m) == Done(m) {
    }
  }

  // The string marshaller keeps the law too, never panics when writing, and reads exactly the encodings of lists of
  // scalar values.
  lemma MarshallerStringLawful(b: Bytes)
    ensures Lawful(MARSHALLER_STRING)
    ensures forall m: RustString :: MARSHALLER_STRING.write(m) == Done(m)
    ensures MARSHALLER_STRING.read(b) == (if ValidUtf8(b) then Done(b) else Panic(InvalidUtf8))
    ensures MARSHALLER_STRING.read(b).Done? <==> exists text: seq<Scalar> :: EncodeText(text) == b
  {
    ValidIffText(b);
    forall m: RustString ensures MARSHALLER_STRING.write(m) == Done(m) && MARSHALLER_STRING.read(m) == Done(m) {
    }
  }
}

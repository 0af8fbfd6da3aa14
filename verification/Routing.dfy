// The paths and the method table that src/codegen.rs generates for a service.
module Routing {
  import opened Common
  import opened Method
  import opened Utf8

  const SLASH: Byte := 0x2F
  const DOT: Byte := 0x2E

  datatype MethodProto = MethodProto(
    name: Bytes,
    input: Bytes,
    output: Bytes,
    clientStreaming: bool,
    serverStreaming: bool)

  datatype ServiceProto = ServiceProto(package: Bytes, name: Bytes, methods: seq<MethodProto>)

  // The protobuf marshaller of each message type; M holds the messages of all types.
  type Marshallers<!M> = Bytes -> Marshaller<M>

  // The trait methods of the service's implementation, by name.
  type Implementation<!M> = Bytes -> Handler<M, M>

  function ServicePath(package: Bytes, service: Bytes): Bytes {
    [SLASH] + package + [DOT] + service
  }

  function MethodPath(servicePath: Bytes, name: Bytes): Bytes {
    servicePath + [SLASH] + name
  }

  function FullPath(package: Bytes, service: Bytes, name: Bytes): Bytes {
    MethodPath(ServicePath(package, service), name)
  }

  // write_method_descriptor: client stub and server get the same descriptor.
  function Descriptor<M>(servicePath: Bytes, m: MethodProto, marshallers: Marshallers<M>): MethodDescriptor<M, M> {
    MethodDescriptor(MethodPath(servicePath, m.name), m.clientStreaming, m.serverStreaming,
                     marshallers(m.input), marshallers(m.output))
  }

  // The descriptor by which the generated client calls a method.
  function StubDescriptor<M>(proto: ServiceProto, m: MethodProto, marshallers: Marshallers<M>): MethodDescriptor<M, M> {
    Descriptor(ServicePath(proto.package, proto.name), m, marshallers)
  }

  // One registration per method of the service, in order: the stub's descriptor and the trait method of its name.
  ghost predicate Registers<M>(methods: Service, proto: ServiceProto, marshallers: Marshallers<M>,
                               implementation: Implementation<M>)
  {
    && |methods| == |proto.methods|
    && forall i | 0 <= i < |methods| ::
         var m := proto.methods[i];
         methods[i] == NewServerMethod(StubDescriptor(proto, m, marshallers), implementation(m.name))
  }

  // What the generated server's constructor registers.
  method BuildServer<M>(proto: ServiceProto, marshallers: Marshallers<M>, implementation: Implementation<M>)
      returns (methods: Service)
    ensures Registers(methods, proto, marshallers, implementation)
  {
    var servicePath := ServicePath(proto.package, proto.name);
    methods := [];
    for i := 0 to |proto.methods|
      invariant |methods| == i
      invariant forall k | 0 <= k < i ::
        var m := proto.methods[k];
        methods[k] == NewServerMethod(Descriptor(servicePath, m, marshallers), implementation(m.name))
    {
      var m := proto.methods[i];
      var desc := Descriptor(servicePath, m, marshallers);
      methods := methods + [NewServerMethod(desc, implementation(m.name))];
    }
  }

  // ----- Paths name methods unambiguously ---------------------------------------------------

  lemma NotAfter(c: Byte, a: Bytes, b: Bytes, i: nat)
    requires c !in b && |a| < i <= |a| + |b|
    ensures (a + [c] + b)[i] != c
  {
    assert b[i - |a| - 1] in b;
  }

  lemma SameSplit(c: Byte, a: Bytes, b: Bytes, a': Bytes, b': Bytes)
    requires a + [c] + b == a' + [c] + b' && |a| == |a'|
    ensures a == a' && b == b'
  {
    var s := a + [c] + b;
    assert a == s[..|a|] && b == s[|a| + 1..];
    assert a' == s[..|a|] && b' == s[|a| + 1..];
  }

  lemma LastSeparator(c: Byte, a: Bytes, b: Bytes, a': Bytes, b': Bytes)
    requires a + [c] + b == a' + [c] + b' && c !in b && c !in b'
    ensures a == a' && b == b'
  {
    assert |a| + |b| == |a'| + |b'|;
    if |a| < |a'| {
      NotAfter(c, a, b, |a'|);
    } else if |a'| < |a| {
      NotAfter(c, a', b', |a|);
    }
    SameSplit(c, a, b, a', b');
  }

  // Two methods share a path exactly when their names and their dotted service names agree.
  lemma PathsEqualIff(package: Bytes, service: Bytes, name: Bytes, package': Bytes, service': Bytes, name': Bytes)
    requires SLASH !in name && SLASH !in name'
    ensures FullPath(package, service, name) == FullPath(package', service', name')
       <==> name == name' && package + [DOT] + service == package' + [DOT] + service'
  {
    var dotted, dotted' := package + [DOT] + service, package' + [DOT] + service';
    assert ServicePath(package, service) == [SLASH] + dotted && ServicePath(package', service') == [SLASH] + dotted';
    if FullPath(package, service, name) == FullPath(package', service', name') {
      LastSeparator(SLASH, ServicePath(package, service), name, ServicePath(package', service'), name');
      assert dotted == ([SLASH] + dotted)[1..] && dotted' == ([SLASH] + dotted')[1..];
    }
  }

  // The generated path determines all three of its parts.
  lemma PathInjective(package: Bytes, service: Bytes, name: Bytes, package': Bytes, service': Bytes, name': Bytes)
    requires SLASH !in name && SLASH !in name'
    requires DOT !in service && DOT !in service'
    ensures FullPath(package, service, name) == FullPath(package', service', name')
       <==> package == package' && service == service' && name == name'
  {
    if FullPath(package, service, name) == FullPath(package', service', name') {
      PathsEqualIff(package, service, name, package', service', name');
      LastSeparator(DOT, package, service, package', service');
    }
  }

  // Without the restriction on service names two different services share a path.
  lemma DottedServiceIsAmbiguous(name: Bytes)
    ensures var a: Bytes, b: Bytes, c: Bytes := [0x61], [0x62], [0x63];
      FullPath(a, b + [DOT] + c, name) == FullPath(a + [DOT] + b, c, name)
  {
    var a: Bytes, b: Bytes, c: Bytes := [0x61], [0x62], [0x63];
    assert ServicePath(a, b + [DOT] + c) == ServicePath(a + [DOT] + b, c);
  }

  // ----- The protocol's paths ---------------------------------------------------------------

  // The path gRPC over HTTP/2 asks for: a service without a package goes by its name alone.
  function ProtocolPath(package: Bytes, service: Bytes, name: Bytes): Bytes {
    [SLASH] + (if package == [] then service else package + [DOT] + service) + [SLASH] + name
  }

  // A generated path is the protocol's exactly when the package is not empty; otherwise it has a dot too many.
  lemma ProtocolPathIff(package: Bytes, service: Bytes, name: Bytes)
    ensures FullPath(package, service, name) == ProtocolPath(package, service, name) <==> package != []
    ensures |FullPath(package, service, name)| ==
              |ProtocolPath(package, service, name)| + if package == [] then 1 else 0
  {
    if package != [] {
      assert ServicePath(package, service) == [SLASH] + (package + [DOT] + service);
    }
  }

  // A service S without a package and its method M: "/.S/M" where the protocol has "/S/M".
  lemma EmptyPackagePath()
    ensures FullPath([], Ascii("S"), Ascii("M")) == Ascii("/.S/M")
    ensures ProtocolPath([], Ascii("S"), Ascii("M")) == Ascii("/S/M")
  {
  }

  // The path in the repository's generated example.
  lemma GreeterPath()
    ensures FullPath(Ascii("helloworld"), Ascii("Greeter"), Ascii("SayHello")) == Ascii("/helloworld.Greeter/SayHello")
  {
  }

  // So a client that follows the protocol reaches a method of the generated server exactly when the service has a
  // package.
  lemma ProtocolClientServedIff<M>(proto: ServiceProto, marshallers: Marshallers<M>, implementation: Implementation<M>,
                                   methods: Service, m: MethodProto)
    requires Registers(methods, proto, marshallers, implementation)
    requires m in proto.methods && forall other <- proto.methods :: SLASH !in other.name
    ensures FindMethod(methods, ProtocolPath(proto.package, proto.name, m.name)).Done? <==> proto.package != []
  {
    var path := ProtocolPath(proto.package, proto.name, m.name);
    FirstMatch(methods, path);
    if proto.package != [] {
      ProtocolPathIff(proto.package, proto.name, m.name);
      var i :| 0 <= i < |proto.methods| && proto.methods[i] == m;
      assert methods[i].name == path;
    } else {
      assert |ServicePath([], proto.name)| == |[SLASH] + proto.name| + 1;
      forall i | 0 <= i < |methods| ensures methods[i].name != path {
        if methods[i].name == path {
          LastSeparator(SLASH, ServicePath([], proto.name), proto.methods[i].name, [SLASH] + proto.name, m.name);
        }
      }
    }
  }

  // ----- Routing ----------------------------------------------------------------------------

  lemma PathOfMethod<M>(proto: ServiceProto, marshallers: Marshallers<M>, implementation: Implementation<M>,
                        methods: Service, package: Bytes, service: Bytes, name: Bytes)
    requires Registers(methods, proto, marshallers, implementation)
    requires DOT !in proto.name && forall m <- proto.methods :: SLASH !in m.name
    requires DOT !in service && SLASH !in name
    ensures forall i | 0 <= i < |methods| ::
              methods[i].name == FullPath(package, service, name)
              <==> package == proto.package && service == proto.name && proto.methods[i].name == name
  {
    forall i | 0 <= i < |methods|
      ensures methods[i].name == FullPath(package, service, name)
         <==> package == proto.package && service == proto.name && proto.methods[i].name == name
    {
      assert proto.methods[i] in proto.methods;
      PathInjective(package, service, name, proto.package, proto.name, proto.methods[i].name);
    }
  }

  // Routing is faithful: among the paths that legal identifiers generate, exactly those of the service's own methods
  // are found; a message for one of them is read, handled by the trait method of its name and answered through the
  // marshallers of the first method so named.
  lemma RoutingIsFaithful<M>(proto: ServiceProto, marshallers: Marshallers<M>, implementation: Implementation<M>,
                             methods: Service, package: Bytes, service: Bytes, name: Bytes, message: Bytes)
    requires Registers(methods, proto, marshallers, implementation)
    requires DOT !in proto.name && forall m <- proto.methods :: SLASH !in m.name
    requires DOT !in service && SLASH !in name
    ensures var path := FullPath(package, service, name);
      if package == proto.package && service == proto.name && exists m <- proto.methods :: m.name == name then
        exists i | 0 <= i < |proto.methods| ::
          && proto.methods[i].name == name && (forall j | 0 <= j < i :: proto.methods[j].name != name)
          && var desc := StubDescriptor(proto, proto.methods[i], marshallers);
             && FindMethod(methods, path) == Done(NewServerMethod(desc, implementation(name)))
             && HandleMethod(methods, path, message) == OnMessage(desc, implementation(name), message)
      else
        HandleMethod(methods, path, message) == Panic(UnknownMethod(path))
  {
    hide FullPath, FindMethod, OnMessage, StubDescriptor;
    var path := FullPath(package, service, name);
    FirstMatch(methods, path);
    PathOfMethod(proto, marshallers, implementation, methods, package, service, name);
    if package == proto.package && service == proto.name && exists m <- proto.methods :: m.name == name {
      var k :| 0 <= k < |proto.methods| && proto.methods[k].name == name;
      assert methods[k].name == path;
      var i := LeastMatch(methods, path);
      assert FindMethod(methods, path) == Done(methods[i]);
      assert proto.methods[i].name == name;
    }
  }

  // A byte of a protobuf identifier.
  predicate IdentifierByte(b: Byte) {
    0x30 <= b <= 0x39 || 0x41 <= b <= 0x5A || b == 0x5F || 0x61 <= b <= 0x7A
  }

  predicate Identifier(s: Bytes) {
    forall b <- s :: IdentifierByte(b)
  }

  // What protoc lets through: identifiers everywhere, dots in the package, and no two methods of one name.
  predicate Legal(proto: ServiceProto) {
    && (forall b <- proto.package :: IdentifierByte(b) || b == DOT)
    && Identifier(proto.name)
    && (forall m <- proto.methods :: Identifier(m.name))
    && (forall i, j | 0 <= i < j < |proto.methods| :: proto.methods[i].name != proto.methods[j].name)
  }

  // A generated client and a generated server of one service agree: each stub's name is a valid header value, and it
  // finds its own descriptor with its own trait method.
  lemma StubFindsItsMethod<M>(proto: ServiceProto, marshallers: Marshallers<M>, implementation: Implementation<M>,
                              methods: Service, m: MethodProto)
    requires Registers(methods, proto, marshallers, implementation) && Legal(proto) && m in proto.methods
    ensures var desc := StubDescriptor(proto, m, marshallers);
      && ValidUtf8(desc.name)
      && FindMethod(methods, desc.name) == Done(NewServerMethod(desc, implementation(m.name)))
      && desc.clientStreaming == m.clientStreaming && desc.serverStreaming == m.serverStreaming
      && desc.reqMarshaller == marshallers(m.input) && desc.respMarshaller == marshallers(m.output)
  {
    RoutingIsFaithful(proto, marshallers, implementation, methods, proto.package, proto.name, m.name, []);
    AsciiIsUtf8(StubDescriptor(proto, m, marshallers).name);
  }

  lemma {:induction false} LeastMatch(methods: Service, name: Bytes) returns (i: nat)
    requires exists k :: 0 <= k < |methods| && methods[k].name == name
    ensures i < |methods| && methods[i].name == name && forall j | 0 <= j < i :: methods[j].name != name
  {
    i := 0;
    while methods[i].name != name
      invariant i < |methods| && forall j | 0 <= j < i :: methods[j].name != name
      decreases |methods| - i
    {
      i := i + 1;
    }
  }
}
